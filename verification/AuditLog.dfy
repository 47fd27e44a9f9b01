/** Every run of the chained, rotating audit file (restarts and crashes at any
    step included) leaves a log that the verifier accepts. */
module AuditLog {
  import opened Text
  import opened ChainCodec
  import opened AuditVerify
  import opened LogBytes

  // ---- State ------------------------------------------------------------------

  /** A rotated file; its name carries the rotation time. */
  datatype File = File(stamp: int, recs: seq<Rec>)

  /** The log directory: rotated files in name order, and the live file. */
  datatype Disk = Disk(rotated: seq<File>, live: Option<seq<Rec>>)

  /** The process: none, or one with a chain position, possibly without an open
      file (between rename and open) and possibly between writing the prune
      record of its oldest backup and deleting that backup. */
  datatype Sink = Down | Up(chain: Chain, hasFile: bool, pruning: bool)

  /** written holds every record ever written, pruned ones included. */
  datatype Sys = Sys(disk: Disk, sink: Sink, written: seq<Rec>)

  function LiveRecs(d: Disk): seq<Rec> {
    if d.live.Some? then d.live.value else []
  }

  function RecsOf(rotated: seq<File>): seq<seq<Rec>> {
    seq(|rotated|, i requires 0 <= i < |rotated| => rotated[i].recs)
  }

  /** LogFiles: rotated files, oldest first, then the live file if it exists. */
  function LogFiles(d: Disk): seq<seq<Rec>> {
    RecsOf(d.rotated) + (if d.live.Some? then [d.live.value] else [])
  }

  function Log(d: Disk): seq<Rec> {
    Flat(LogFiles(d))
  }

  // ---- Steps ------------------------------------------------------------------

  /** resumeChain over the bytes of the files, newest last. */
  function Resume(env: Env, files: seq<string>): Chain {
    if files == [] then Chain(0, "")
    else
      var last := files[|files| - 1];
      if last == "" then Resume(env, files[..|files| - 1])
      else match LastChainState(env, last)
        case Some(st) => Commit(st)
        case None => Chain(0, "")
  }

  function SealedRec(env: Env, c: Chain, event: string): Rec {
    Rec(TrimSpace(event), NextState(env, c, event))
  }

  predicate Loggable(event: string) {
    Sealable(event) && '\n' !in TrimSpace(event)
  }

  /** A rename to the name of time stamp: file names sort by time, and renaming
      onto an existing name replaces that file. */
  function Insert(rotated: seq<File>, f: File): seq<File> {
    if rotated == [] then [f]
    else if rotated[0].stamp < f.stamp then [rotated[0]] + Insert(rotated[1..], f)
    else if rotated[0].stamp == f.stamp then [f] + rotated[1..]
    else [f] + rotated
  }

  predicate Newest(rotated: seq<File>, stamp: int) {
    forall i | 0 <= i < |rotated| :: rotated[i].stamp < stamp
  }

  /** e is the audit.pruned event for a file whose newest state is st. */
  predicate Names(env: Env, e: string, st: ChainState) {
    env.claim(e) == Some(env.key(st.seqNo, st.mac))
  }

  predicate Readable(recs: seq<Rec>) {
    forall i | 0 <= i < |recs| :: recs[i].event != ""
  }

  /** event names the newest state found in the bytes of a file of recs. */
  predicate PruneNames(env: Env, recs: seq<Rec>, event: string)
    requires Readable(recs)
  {
    match LastChainState(env, Bytes(recs))
    case Some(st) => Names(env, TrimSpace(event), st)
    case None => true
  }

  function Appended(s: Sys, env: Env, event: string): Sys
    requires s.sink.Up?
  {
    var r := SealedRec(env, s.sink.chain, event);
    Sys(s.disk.(live := Some(LiveRecs(s.disk) + [r])), s.sink.(chain := Commit(r.st)), s.written + [r])
  }

  datatype Step =
    | Start                    // OpenFileSink: resume the chain, open the live file
    | Append(event: string)    // appendLocked: one sealed line
    | Rename(stamp: int)       // rotateLocked: close and move the live file aside
    | Reopen                   // rotateLocked: open a new live file
    | LoseHandle               // rotateLocked: the close or the reopen failed
    | RecordPrune(event: string)
    | DeletePruned
    | Abandon                  // the delete failed; rotation gives up
    | Crash

  ghost predicate Next(env: Env, maxBackups: int, s: Sys, step: Step, s': Sys) {
    match step
    case Start =>
      && s.sink.Down?
      && NonEmptyEvents(LogFiles(s.disk))
      && s' == s.(disk := s.disk.(live := Some(LiveRecs(s.disk))),
                  sink := Up(Resume(env, AllBytes(LogFiles(s.disk))), true, false))
    case Append(event) =>
      && s.sink.Up? && s.sink.hasFile && !s.sink.pruning && Loggable(event)
      && s' == Appended(s, env, event)
    case Rename(stamp) =>
      && s.sink.Up? && s.sink.hasFile && !s.sink.pruning
      && LiveRecs(s.disk) != []             // only a non-empty file is rotated
      && Newest(s.disk.rotated, stamp)      // the clock moves forward
      && s' == s.(disk := Disk(Insert(s.disk.rotated, File(stamp, LiveRecs(s.disk))), None),
                  sink := s.sink.(hasFile := false))
    case Reopen =>
      && s.sink.Up? && !s.sink.hasFile
      && s' == s.(disk := s.disk.(live := Some(LiveRecs(s.disk))), sink := s.sink.(hasFile := true))
    case LoseHandle =>
      && s.sink.Up? && !s.sink.pruning && s' == s.(sink := s.sink.(hasFile := false))
    case RecordPrune(event) =>
      && s.sink.Up? && s.sink.hasFile && !s.sink.pruning && Loggable(event)
      && 0 < maxBackups < |s.disk.rotated|
      && Readable(s.disk.rotated[0].recs) && PruneNames(env, s.disk.rotated[0].recs, event)
      && s' == Appended(s, env, event).(sink := Appended(s, env, event).sink.(pruning := true))
    case DeletePruned =>
      && s.sink.Up? && s.sink.pruning && s.disk.rotated != []
      && s' == s.(disk := s.disk.(rotated := s.disk.rotated[1..]), sink := s.sink.(pruning := false))
    case Abandon =>
      && s.sink.Up? && s' == s.(sink := s.sink.(pruning := false))
    case Crash =>
      s' == s.(sink := Down)
  }

  const Fresh: Sys := Sys(Disk([], None), Down, [])

  ghost predicate CanStep(env: Env, maxBackups: int, s: Sys, s': Sys) {
    exists step :: Next(env, maxBackups, s, step, s')
  }

  /** A run from an empty directory. */
  ghost predicate Run(env: Env, maxBackups: int, trace: seq<Sys>) {
    && trace != [] && trace[0] == Fresh
    && forall i | 0 <= i < |trace| - 1 :: CanStep(env, maxBackups, trace[i], trace[i + 1])
  }

  // ---- Invariant ------------------------------------------------------------------

  ghost predicate Explained(env: Env, all: seq<Rec>) {
    all != [] ==>
      || Genesis(all[0].st)
      || exists j | 0 <= j < |all| :: env.claim(all[j].event) == Some(StartKey(env, all[0].st))
  }

  /** Record i continues record i - 1. */
  predicate ContinuesAt(all: seq<Rec>, i: int) {
    0 < i < |all| && Linked(all[i - 1].st, all[i].st)
  }

  ghost predicate Chainful(env: Env, all: seq<Rec>) {
    && GoodRecs(env, all)
    && (forall i | 0 < i < |all| :: ContinuesAt(all, i))
    && Explained(env, all)
  }

  function Position(all: seq<Rec>): Chain {
    if all == [] then Chain(0, "") else Commit(all[|all| - 1].st)
  }

  /** The live file already holds the record that explains the deletion of the
      oldest backup. */
  ghost predicate Recorded(env: Env, d: Disk) {
    && d.rotated != [] && d.rotated[0].recs != []
    && var oldest := d.rotated[0].recs;
       exists j | 0 <= j < |LiveRecs(d)| :: Names(env, LiveRecs(d)[j].event, oldest[|oldest| - 1].st)
  }

  ghost predicate Inv(env: Env, s: Sys) {
    && Chainful(env, Log(s.disk))
    && GoodFiles(env, LogFiles(s.disk))
    && (forall i | 0 <= i < |s.disk.rotated| :: s.disk.rotated[i].recs != [])
    && (s.sink.Up? ==>
          && s.sink.chain == Position(Log(s.disk))
          && ValidChain(s.sink.chain)
          && (s.sink.hasFile ==> s.disk.live.Some?)
          && (!s.sink.hasFile ==> !s.sink.pruning)
          && (s.sink.pruning ==> Recorded(env, s.disk)))
  }

  // ---- The log as a flat sequence -----------------------------------------------

  lemma {:induction false} FlatConcat(a: seq<seq<Rec>>, b: seq<seq<Rec>>)
    ensures Flat(a + b) == Flat(a) + Flat(b)
  {
    if a == [] {
      assert a + b == b;
    } else {
      assert (a + b)[1..] == a[1..] + b;
      FlatConcat(a[1..], b);
    }
  }

  lemma LogParts(d: Disk)
    ensures Log(d) == Flat(RecsOf(d.rotated)) + LiveRecs(d)
  {
    if d.live.Some? {
      FlatConcat(RecsOf(d.rotated), [d.live.value]);
      assert Flat([d.live.value]) == d.live.value + Flat([]);
    } else {
      assert LogFiles(d) == RecsOf(d.rotated);
    }
  }

  lemma {:induction false} InsertNewest(rotated: seq<File>, f: File)
    requires Newest(rotated, f.stamp)
    ensures Insert(rotated, f) == rotated + [f]
  {
    if rotated != [] {
      InsertNewest(rotated[1..], f);
    }
  }

  // ---- Each step keeps the invariant ------------------------------------------------

  lemma PositionValid(env: Env, all: seq<Rec>)
    requires GoodRecs(env, all)
    ensures ValidChain(Position(all))
  {
  }

  /** A record sealed at the end of the chain continues it. */
  lemma WrittenSnoc(env: Env, all: seq<Rec>, event: string)
    requires Faithful(env) && GoodRecs(env, all) && Loggable(event)
    ensures var r := SealedRec(env, Position(all), event);
            && GoodRec(env, r)
            && (if all == [] then Genesis(r.st) else Linked(all[|all| - 1].st, r.st))
  {
    PositionValid(env, all);
    NextStateCanonical(env, Position(all), event);
    TrimSpaceTrims(event);
    if all != [] {
      assert GoodRec(env, all[|all| - 1]);
    }
  }

  lemma ContinuesSnoc(all: seq<Rec>, r: Rec)
    requires forall i | 0 < i < |all| :: ContinuesAt(all, i)
    requires all != [] ==> Linked(all[|all| - 1].st, r.st)
    ensures forall i | 0 < i < |all + [r]| :: ContinuesAt(all + [r], i)
  {
    forall i | 0 < i < |all + [r]| ensures ContinuesAt(all + [r], i) {
      assert i < |all| ==> ContinuesAt(all, i);
    }
  }

  lemma ExplainedSnoc(env: Env, all: seq<Rec>, r: Rec)
    requires Explained(env, all) && (all == [] ==> Genesis(r.st))
    ensures Explained(env, all + [r])
  {
    if j :| 0 <= j < |all| && env.claim(all[j].event) == Some(StartKey(env, all[0].st)) {
      assert (all + [r])[j] == all[j];
    }
  }

  lemma ChainfulSnoc(env: Env, all: seq<Rec>, event: string)
    requires Faithful(env) && Chainful(env, all) && Loggable(event)
    ensures Chainful(env, all + [SealedRec(env, Position(all), event)])
    ensures ValidChain(Position(all + [SealedRec(env, Position(all), event)]))
  {
    var r := SealedRec(env, Position(all), event);
    WrittenSnoc(env, all, event);
    ContinuesSnoc(all, r);
    ExplainedSnoc(env, all, r);
    PositionValid(env, all + [r]);
  }

  lemma LogOfAppended(env: Env, s: Sys, event: string)
    requires s.sink.Up?
    ensures Log(Appended(s, env, event).disk) == Log(s.disk) + [SealedRec(env, s.sink.chain, event)]
  {
    LogParts(s.disk);
    LogParts(Appended(s, env, event).disk);
  }

  lemma FilesOfLog(env: Env, d: Disk)
    requires GoodFiles(env, LogFiles(d)) && GoodRecs(env, LiveRecs(d))
    ensures GoodFiles(env, RecsOf(d.rotated))
    ensures forall live | GoodRecs(env, live) :: GoodFiles(env, LogFiles(d.(live := Some(live))))
    ensures GoodFiles(env, LogFiles(d.(live := None)))
  {
    var files := LogFiles(d);
    forall i | 0 <= i < |d.rotated| ensures GoodRecs(env, RecsOf(d.rotated)[i]) {
      assert files[i] == RecsOf(d.rotated)[i];
    }
  }

  lemma LiveIsGood(env: Env, d: Disk)
    requires GoodRecs(env, Log(d))
    ensures GoodRecs(env, LiveRecs(d))
  {
    LogParts(d);
    var all, live, n := Log(d), LiveRecs(d), |Flat(RecsOf(d.rotated))|;
    forall i | 0 <= i < |live| ensures GoodRec(env, live[i]) {
      assert live[i] == all[n + i];
    }
  }

  lemma AppendKeeps(env: Env, s: Sys, event: string)
    requires Faithful(env) && Inv(env, s) && s.sink.Up? && s.sink.hasFile && !s.sink.pruning && Loggable(event)
    ensures Inv(env, Appended(s, env, event))
  {
    var s' := Appended(s, env, event);
    LogOfAppended(env, s, event);
    ChainfulSnoc(env, Log(s.disk), event);
    LiveIsGood(env, s.disk);
    LiveIsGood(env, s'.disk);
    FilesOfLog(env, s.disk);
    assert s'.disk == s.disk.(live := Some(LiveRecs(s'.disk)));
  }

  /** Changing only whether the (empty) live file exists changes nothing else. */
  lemma TouchLive(env: Env, d: Disk)
    requires Chainful(env, Log(d)) && GoodFiles(env, LogFiles(d))
    ensures var d' := d.(live := Some(LiveRecs(d)));
            Log(d') == Log(d) && GoodFiles(env, LogFiles(d'))
  {
    var d' := d.(live := Some(LiveRecs(d)));
    LogParts(d);
    LogParts(d');
    LiveIsGood(env, d);
    FilesOfLog(env, d);
  }

  /** resumeChain finds the position after the newest record, whichever file it
      is in. */
  lemma {:induction false} ResumeFinds(env: Env, files: seq<seq<Rec>>)
    requires Faithful(env) && GoodFiles(env, files)
    ensures NonEmptyEvents(files)
    ensures Resume(env, AllBytes(files)) == Position(Flat(files))
  {
    if files != [] {
      var init, last := files[..|files| - 1], files[|files| - 1];
      assert files == init + [last];
      FlatConcat(init, [last]);
      assert Flat([last]) == last + Flat([]);
      var bytes := AllBytes(files);
      assert bytes[|bytes| - 1] == Bytes(last);
      assert bytes[..|bytes| - 1] == AllBytes(init);
      if last == [] {
        assert Bytes(last) == "";
        ResumeFinds(env, init);
      } else {
        RenderEnds(Lines(last));
        LastStateOfBytes(env, last);
      }
    }
  }

  lemma StartKeeps(env: Env, s: Sys, s': Sys)
    requires Faithful(env) && Inv(env, s) && Next(env, 0, s, Start, s')
    ensures Inv(env, s')
  {
    TouchLive(env, s.disk);
    ResumeFinds(env, LogFiles(s.disk));
    PositionValid(env, Log(s.disk));
  }

  lemma RenameSameLog(env: Env, s: Sys, stamp: int, s': Sys)
    requires Next(env, 0, s, Rename(stamp), s') && s.disk.live.Some?
    ensures s'.disk.rotated == s.disk.rotated + [File(stamp, LiveRecs(s.disk))]
    ensures LogFiles(s'.disk) == LogFiles(s.disk)
  {
    var live, d := LiveRecs(s.disk), s.disk;
    InsertNewest(d.rotated, File(stamp, live));
    var rotated := d.rotated + [File(stamp, live)];
    assert RecsOf(rotated) == RecsOf(d.rotated) + [live];
  }

  lemma RenameKeeps(env: Env, s: Sys, stamp: int, s': Sys)
    requires Inv(env, s) && Next(env, 0, s, Rename(stamp), s')
    ensures Inv(env, s')
  {
    RenameSameLog(env, s, stamp, s');
  }

  lemma OldestIsGood(env: Env, d: Disk)
    requires GoodFiles(env, LogFiles(d)) && d.rotated != []
    ensures GoodRecs(env, d.rotated[0].recs)
  {
    assert LogFiles(d)[0] == d.rotated[0].recs;
  }

  lemma PruneIsRecorded(env: Env, d: Disk, event: string, live: seq<Rec>)
    requires Faithful(env) && GoodFiles(env, LogFiles(d))
    requires d.rotated != [] && d.rotated[0].recs != []
    requires Readable(d.rotated[0].recs) && PruneNames(env, d.rotated[0].recs, event)
    requires live != [] && live[|live| - 1].event == TrimSpace(event)
    ensures Recorded(env, d.(live := Some(live)))
  {
    var oldest := d.rotated[0].recs;
    OldestIsGood(env, d);
    LastStateOfBytes(env, oldest);
    assert LiveRecs(d.(live := Some(live))) == live;
    assert Names(env, live[|live| - 1].event, oldest[|oldest| - 1].st);
  }

  lemma PruneRecordKeeps(env: Env, maxBackups: int, s: Sys, event: string, s': Sys)
    requires Faithful(env) && Inv(env, s) && Next(env, maxBackups, s, RecordPrune(event), s')
    ensures Inv(env, s')
  {
    AppendKeeps(env, s, event);
    PruneIsRecorded(env, s.disk, event, LiveRecs(s'.disk));
    assert s'.disk == s.disk.(live := Some(LiveRecs(s'.disk)));
  }

  /** The log without its first n records is explained by any record that names
      record n - 1. */
  lemma DropPrefix(env: Env, all: seq<Rec>, n: nat, j: nat)
    requires Chainful(env, all) && 0 < n <= j < |all|
    requires Names(env, all[j].event, all[n - 1].st)
    ensures Chainful(env, all[n..]) && Position(all[n..]) == Position(all)
  {
    var rest := all[n..];
    assert ContinuesAt(all, n);
    assert GoodRec(env, all[n - 1]);
    assert StartKey(env, rest[0].st) == env.key(all[n - 1].st.seqNo, all[n - 1].st.mac);
    assert rest[j - n] == all[j];
    forall i | 0 < i < |rest| ensures ContinuesAt(rest, i) {
      assert ContinuesAt(all, n + i);
    }
  }

  lemma LogAfterDelete(d: Disk) returns (m: nat)
    requires d.rotated != []
    ensures Log(d) == d.rotated[0].recs + Log(d.(rotated := d.rotated[1..]))
    ensures |d.rotated[0].recs| <= m <= |Log(d)| && Log(d)[m..] == LiveRecs(d)
  {
    var d' := d.(rotated := d.rotated[1..]);
    LogParts(d);
    LogParts(d');
    assert RecsOf(d.rotated)[1..] == RecsOf(d'.rotated);
    m := |Flat(RecsOf(d.rotated))|;
    assert Log(d)[m..] == LiveRecs(d);
  }

  lemma DropFirstFile(env: Env, oldest: seq<Rec>, rest: seq<Rec>, live: seq<Rec>, m: nat)
    requires Chainful(env, oldest + rest) && oldest != []
    requires |oldest| <= m <= |oldest + rest| && (oldest + rest)[m..] == live
    requires exists j | 0 <= j < |live| :: Names(env, live[j].event, oldest[|oldest| - 1].st)
    ensures Chainful(env, rest) && Position(rest) == Position(oldest + rest)
  {
    var all, n := oldest + rest, |oldest|;
    var j :| 0 <= j < |live| && Names(env, live[j].event, oldest[n - 1].st);
    assert all[m + j] == live[j];
    DropPrefix(env, all, n, m + j);
    assert all[n..] == rest;
  }

  lemma DeleteChain(env: Env, d: Disk)
    requires Chainful(env, Log(d)) && Recorded(env, d)
    ensures var d' := d.(rotated := d.rotated[1..]);
            Chainful(env, Log(d')) && Position(Log(d')) == Position(Log(d))
  {
    var m := LogAfterDelete(d);
    DropFirstFile(env, d.rotated[0].recs, Log(d.(rotated := d.rotated[1..])), LiveRecs(d), m);
  }

  lemma DeleteFiles(env: Env, d: Disk)
    requires GoodFiles(env, LogFiles(d)) && d.rotated != []
    ensures GoodFiles(env, LogFiles(d.(rotated := d.rotated[1..])))
  {
    assert LogFiles(d.(rotated := d.rotated[1..])) == LogFiles(d)[1..];
  }

  lemma DeleteKeeps(env: Env, s: Sys, s': Sys)
    requires Inv(env, s) && Next(env, 0, s, DeletePruned, s')
    ensures Inv(env, s')
  {
    DeleteChain(env, s.disk);
    DeleteFiles(env, s.disk);
  }

  lemma StepKeeps(env: Env, maxBackups: int, s: Sys, step: Step, s': Sys)
    requires Faithful(env) && Inv(env, s) && Next(env, maxBackups, s, step, s')
    ensures Inv(env, s')
  {
    match step
    case Start => StartKeeps(env, s, s');
    case Append(event) => AppendKeeps(env, s, event);
    case Rename(stamp) => RenameKeeps(env, s, stamp, s');
    case Reopen => TouchLive(env, s.disk);
    case RecordPrune(event) => PruneRecordKeeps(env, maxBackups, s, event, s');
    case DeletePruned => DeleteKeeps(env, s, s');
    case LoseHandle =>
    case Abandon =>
    case Crash =>
  }

  /** What holds at the start and is kept by every step holds throughout. */
  lemma {:induction false} HoldsThroughout(next: (Sys, Sys) -> bool, good: Sys -> bool, trace: seq<Sys>, k: nat)
    requires k < |trace| && good(trace[0]) && forall i | 0 <= i < |trace| - 1 :: next(trace[i], trace[i + 1])
    requires forall s, s' {:trigger next(s, s')} | next(s, s') && good(s) :: good(s')
    ensures good(trace[k])
  {
    if k > 0 {
      HoldsThroughout(next, good, trace, k - 1);
      assert next(trace[k - 1], trace[k - 1 + 1]);
    }
  }

  lemma AnyStepKeeps(env: Env, maxBackups: int, s: Sys, s': Sys)
    requires Faithful(env) && Inv(env, s) && CanStep(env, maxBackups, s, s')
    ensures Inv(env, s')
  {
    var step :| Next(env, maxBackups, s, step, s');
    StepKeeps(env, maxBackups, s, step, s');
  }

  lemma FreshIsFine(env: Env)
    ensures Inv(env, Fresh)
  {
    assert Log(Fresh.disk) == [];
  }

  lemma RunKeeps(env: Env, maxBackups: int, trace: seq<Sys>)
    requires Faithful(env) && Run(env, maxBackups, trace)
    ensures Inv(env, trace[|trace| - 1])
  {
    FreshIsFine(env);
    forall s, s' | CanStep(env, maxBackups, s, s') && Inv(env, s) ensures Inv(env, s') {
      AnyStepKeeps(env, maxBackups, s, s');
    }
    HoldsThroughout((s, s') => CanStep(env, maxBackups, s, s'), s => Inv(env, s), trace, |trace| - 1);
  }

  // ---- The main result ----------------------------------------------------------------

  lemma LeadingParsed(recs: seq<Rec>)
    ensures Leading(Parsed(recs)) == 0
  {
  }

  lemma ChainfulIsClean(env: Env, all: seq<Rec>)
    requires Chainful(env, all)
    ensures Clean(env, Parsed(all))
  {
    var rs := Parsed(all);
    LeadingParsed(all);
    forall i | 0 <= i < |rs| ensures MacOk(env, rs[i]) {
      assert GoodRec(env, all[i]);
    }
    forall i | 0 < i < |rs| ensures LinkedAt(rs, i) {
      assert ContinuesAt(all, i);
    }
    if all != [] && !Genesis(all[0].st) {
      var j :| 0 <= j < |all| && env.claim(all[j].event) == Some(StartKey(env, all[0].st));
      assert Claims(env, rs[j], StartKey(env, rs[0].st));
    }
  }

  /** Verifier completeness: at every point of every run, crashes included, the
      bytes of the log directory, read in LogFiles order, form a clean log. */
  lemma EveryRunVerifies(env: Env, maxBackups: int, trace: seq<Sys>)
    requires Faithful(env) && Run(env, maxBackups, trace)
    ensures var files := LogFiles(trace[|trace| - 1].disk);
            NonEmptyEvents(files) && Clean(env, View(env, Scan(OpenLog(AllBytes(files)))))
  {
    var s := trace[|trace| - 1];
    RunKeeps(env, maxBackups, trace);
    ViewOpenLog(env, LogFiles(s.disk));
    ChainfulIsClean(env, Log(s.disk));
  }

  /** What the scanner and the verifier make of those bytes. */
  lemma RunReadsBack(env: Env, maxBackups: int, trace: seq<Sys>)
    requires Faithful(env) && Run(env, maxBackups, trace)
    ensures ReadsBack(env, trace[|trace| - 1].disk)
  {
    var d := trace[|trace| - 1].disk;
    RunKeeps(env, maxBackups, trace);
    EveryRunVerifies(env, maxBackups, trace);
    ViewOpenLog(env, LogFiles(d));
    LongOpenLog(env, LogFiles(d));
  }

  ghost predicate ReadsBack(env: Env, d: Disk) {
    && NonEmptyEvents(LogFiles(d))
    && var lines := Scan(OpenLog(AllBytes(LogFiles(d))));
       && ((exists i | 0 <= i < |lines| :: TooLong(lines[i])) <==> Overlong(Log(d)))
       && View(env, lines) == Parsed(Log(d)) && Clean(env, View(env, lines))
  }

  /** And the verifier itself, given those bytes, reports no problem: it fails to
      read them if and only if some record's line has 16 MiB or more, and
      otherwise finds every record and no problem. */
  method VerifyLog(env: Env, files: seq<string>, ghost maxBackups: int, ghost trace: seq<Sys>)
      returns (report: Report, readError: bool)
    requires Faithful(env) && Run(env, maxBackups, trace)
    requires NonEmptyEvents(LogFiles(trace[|trace| - 1].disk))
    requires files == AllBytes(LogFiles(trace[|trace| - 1].disk))
    ensures readError <==> Overlong(Log(trace[|trace| - 1].disk))
    ensures !readError ==> ReportsAll(report, Log(trace[|trace| - 1].disk))
  {
    RunReadsBack(env, maxBackups, trace);
    report, readError := VerifyReadable(env, files, trace[|trace| - 1].disk);
  }

  /** No problem, every record counted, and the newest one remembered. */
  predicate ReportsAll(report: Report, all: seq<Rec>) {
    && report.problems == [] && report.unchained == 0 && report.records == report.chained == |all|
    && (all != [] ==> report.segments == 1 && report.lastSeq == all[|all| - 1].st.seqNo
                      && report.lastMac == all[|all| - 1].st.mac)
  }

  method VerifyReadable(env: Env, files: seq<string>, ghost d: Disk) returns (report: Report, readError: bool)
    requires ReadsBack(env, d) && files == AllBytes(LogFiles(d))
    ensures readError <==> Overlong(Log(d))
    ensures !readError ==> ReportsAll(report, Log(d))
  {
    ghost var all := Log(d);
    LeadingParsed(all);
    var lines := Scan(OpenLog(files));
    assert View(env, lines) == Parsed(all);
    report, readError := VerifyChain(env, lines);
    assert |Parsed(all)| == |all|;
    assert all != [] ==> Parsed(all)[|all| - 1] == Chained(all[|all| - 1].event, all[|all| - 1].st);
  }

  // ---- What a run writes ----------------------------------------------------------------

  /** One chain that begins at record 1. */
  ghost predicate OneChain(env: Env, all: seq<Rec>) {
    && GoodRecs(env, all)
    && (forall i | 0 < i < |all| :: ContinuesAt(all, i))
    && (all != [] ==> Genesis(all[0].st))
  }

  /** The log is the end of such a chain. */
  ghost predicate Kept(env: Env, s: Sys) {
    OneChain(env, s.written) && EndOf(Log(s.disk), s.written)
  }

  /** part is the last part of all, and not empty unless all is. */
  predicate EndOf(part: seq<Rec>, all: seq<Rec>) {
    |part| <= |all| && all[|all| - |part|..] == part && (all != [] ==> part != [])
  }

  lemma EndPosition(part: seq<Rec>, all: seq<Rec>)
    requires EndOf(part, all)
    ensures Position(part) == Position(all)
  {
    if part != [] {
      assert part[|part| - 1] == all[|all| - 1];
    }
  }

  lemma EndSnoc(part: seq<Rec>, all: seq<Rec>, r: Rec)
    requires EndOf(part, all)
    ensures EndOf(part + [r], all + [r])
  {
  }

  lemma EndShrinks(gone: seq<Rec>, part: seq<Rec>, all: seq<Rec>)
    requires EndOf(gone + part, all) && part != []
    ensures EndOf(part, all)
  {
    assert all[|all| - |part|..] == (gone + part)[|gone|..];
  }

  lemma OneChainSnoc(env: Env, all: seq<Rec>, r: Rec)
    requires OneChain(env, all) && GoodRec(env, r)
    requires if all == [] then Genesis(r.st) else Linked(all[|all| - 1].st, r.st)
    ensures OneChain(env, all + [r])
  {
    ContinuesSnoc(all, r);
    assert all != [] ==> (all + [r])[0] == all[0];
  }

  lemma AppendSeals(env: Env, s: Sys, event: string)
    requires Faithful(env) && Kept(env, s) && Loggable(event)
    requires s.sink.Up? && s.sink.chain == Position(Log(s.disk))
    ensures Kept(env, Appended(s, env, event))
  {
    var all, r := s.written, SealedRec(env, s.sink.chain, event);
    EndPosition(Log(s.disk), all);
    WrittenSnoc(env, all, event);
    OneChainSnoc(env, all, r);
    LogOfAppended(env, s, event);
    EndSnoc(Log(s.disk), all, r);
  }

  lemma DeleteSeals(env: Env, s: Sys, s': Sys)
    requires Inv(env, s) && Kept(env, s) && Next(env, 0, s, DeletePruned, s')
    ensures Kept(env, s')
  {
    var m := LogAfterDelete(s.disk);
    LogParts(s'.disk);
    EndShrinks(s.disk.rotated[0].recs, Log(s'.disk), s.written);
  }

  lemma StepSeals(env: Env, maxBackups: int, s: Sys, step: Step, s': Sys)
    requires Faithful(env) && Inv(env, s) && Kept(env, s) && Next(env, maxBackups, s, step, s')
    ensures Kept(env, s')
  {
    match step
    case Start => TouchLive(env, s.disk);
    case Append(event) => AppendSeals(env, s, event);
    case Rename(stamp) => RenameSameLog(env, s, stamp, s');
    case Reopen => TouchLive(env, s.disk);
    case RecordPrune(event) => AppendSeals(env, s, event);
    case DeletePruned => DeleteSeals(env, s, s');
    case _ =>
  }

  ghost predicate InvKept(env: Env, s: Sys) { Inv(env, s) && Kept(env, s) }

  lemma AnyStepSeals(env: Env, maxBackups: int, s: Sys, s': Sys)
    requires Faithful(env) && InvKept(env, s) && CanStep(env, maxBackups, s, s')
    ensures InvKept(env, s')
  {
    AnyStepKeeps(env, maxBackups, s, s');
    var step :| Next(env, maxBackups, s, step, s');
    StepSeals(env, maxBackups, s, step, s');
  }

  lemma FreshIsKept(env: Env)
    ensures InvKept(env, Fresh)
  {
    FreshIsFine(env);
    assert Log(Fresh.disk) == [];
  }

  lemma RunSeals(env: Env, maxBackups: int, trace: seq<Sys>)
    requires Faithful(env) && Run(env, maxBackups, trace)
    ensures Kept(env, trace[|trace| - 1])
  {
    FreshIsKept(env);
    forall s, s' | CanStep(env, maxBackups, s, s') && InvKept(env, s) ensures InvKept(env, s') {
      AnyStepSeals(env, maxBackups, s, s');
    }
    HoldsThroughout((s, s') => CanStep(env, maxBackups, s, s'), s => InvKept(env, s), trace, |trace| - 1);
  }
}
