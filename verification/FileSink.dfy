/** The audit file itself: a FileSink whose fields change on every write, on the
    bytes of the log directory. Its ghost state shows that whatever sequence of
    calls is made, the directory goes through a run of AuditLog. */
module FileSinks {
  import opened Text
  import opened ChainCodec
  import opened AuditVerify
  import opened LogBytes
  import opened AuditLog

  datatype RotatedFile = RotatedFile(stamp: int, bytes: string)

  /** encodeEvent of the audit.pruned event for a rotated file: one JSON object
      that decodes to the state it was given. */
  ghost predicate EncodesPrunes(env: Env, encode: (int, Option<ChainState>) -> string) {
    && (forall t: int, st: ChainState | Canonical(st) ::
          Loggable(encode(t, Some(st))) && Names(env, TrimSpace(encode(t, Some(st))), st))
    && (forall t: int :: Loggable(encode(t, None)))
  }

  function KeyText(n: nat, mac: string): string { Decimal(n) + "/" + mac }

  function PruneText(t: int, st: Option<ChainState>): string {
    if st.Some? && Canonical(st.value) then "{" + KeyText(st.value.seqNo, st.value.mac) + "}" else "{}"
  }

  lemma PruneTextLoggable(t: int, st: Option<ChainState>)
    ensures Loggable(PruneText(t, st)) && TrimSpace(PruneText(t, st)) == PruneText(t, st)
  {
  }

  /** What the results below ask of HMAC and JSON can be had together. */
  lemma EnvironmentExists() returns (env: Env, encode: (int, Option<ChainState>) -> string)
    ensures Faithful(env) && EncodesPrunes(env, encode)
    ensures env.key == KeyText
  {
    env := Env((n: nat, p: string, e: string) => "0", KeyText, DecodeState,
               (e: string) => if |e| > 2 then Some(e[1..|e| - 1]) else None,
               line => SplitChained(DecodeState, line));
    encode := PruneText;
    forall st: ChainState | Canonical(st) ensures env.decode(EncodeState(st)) == Some(st) {
      DecodeEncodeState(st);
    }
    forall t: int, st: ChainState | Canonical(st)
      ensures Loggable(encode(t, Some(st))) && Names(env, TrimSpace(encode(t, Some(st))), st)
    {
      PruneTextLoggable(t, Some(st));
      var k := KeyText(st.seqNo, st.mac);
      assert ("{" + k + "}")[1..|k| + 1] == k;
    }
    forall t: int ensures Loggable(encode(t, None)) {
      PruneTextLoggable(t, None);
    }
  }

  /** resumeChain: walk back over empty files to the newest record. */
  method ResumeChain(env: Env, files: seq<string>) returns (c: Chain)
    ensures c == Resume(env, files)
  {
    c := Chain(0, "");
    var i := |files|;
    assert files[..i] == files;
    while i > 0
      invariant 0 <= i <= |files|
      invariant c == Chain(0, "")
      invariant Resume(env, files) == Resume(env, files[..i])
    {
      i := i - 1;
      assert files[..i + 1][..i] == files[..i];
      if files[i] != "" {
        var st := LastChainState(env, files[i]);
        if st.Some? {
          c := Commit(st.value);
        }
        return;
      }
    }
    assert files[..0] == [];
  }

  // ---- States that runs reach -------------------------------------------------------

  ghost predicate Ends(env: Env, maxBackups: int, trace: seq<Sys>, s: Sys) {
    Run(env, maxBackups, trace) && trace[|trace| - 1] == s
  }

  ghost predicate Reachable(env: Env, maxBackups: int, s: Sys) {
    exists trace :: Ends(env, maxBackups, trace, s)
  }

  lemma RunSnoc(env: Env, maxBackups: int, trace: seq<Sys>, step: Step, s': Sys)
    requires Run(env, maxBackups, trace) && Next(env, maxBackups, trace[|trace| - 1], step, s')
    ensures Run(env, maxBackups, trace + [s'])
  {
    var t := trace + [s'];
    forall i | 0 <= i < |t| - 1 ensures CanStep(env, maxBackups, t[i], t[i + 1]) {
      if i == |trace| - 1 {
        assert Next(env, maxBackups, t[i], step, t[i + 1]);
      } else {
        assert CanStep(env, maxBackups, trace[i], trace[i + 1]);
      }
    }
  }

  lemma OneMore(env: Env, maxBackups: int, s: Sys, step: Step, s': Sys)
    requires Reachable(env, maxBackups, s) && Next(env, maxBackups, s, step, s')
    ensures Reachable(env, maxBackups, s')
  {
    var trace :| Ends(env, maxBackups, trace, s);
    RunSnoc(env, maxBackups, trace, step, s');
    assert Ends(env, maxBackups, trace + [s'], s');
  }

  lemma ReachableIsFine(env: Env, maxBackups: int, s: Sys)
    requires Faithful(env) && Reachable(env, maxBackups, s)
    ensures Inv(env, s)
  {
    var trace :| Ends(env, maxBackups, trace, s);
    RunKeeps(env, maxBackups, trace);
  }

  /** Recording the prune of the oldest backup, and deleting it or failing to, are
      two steps. */
  lemma PruneSteps(env: Env, maxBackups: int, s: Sys, event: string, deletes: bool) returns (s2: Sys)
    requires Reachable(env, maxBackups, s) && Loggable(event)
    requires s.sink.Up? && s.sink.hasFile && !s.sink.pruning && 0 < maxBackups < |s.disk.rotated|
    requires Readable(s.disk.rotated[0].recs) && PruneNames(env, s.disk.rotated[0].recs, event)
    ensures Reachable(env, maxBackups, s2)
    ensures var a := Appended(s, env, event);
            s2 == if deletes then a.(disk := a.disk.(rotated := a.disk.rotated[1..])) else a
  {
    var a := Appended(s, env, event);
    var s1 := a.(sink := a.sink.(pruning := true));
    s2 := if deletes then a.(disk := a.disk.(rotated := a.disk.rotated[1..])) else a;
    OneMore(env, maxBackups, s, RecordPrune(event), s1);
    OneMore(env, maxBackups, s1, if deletes then DeletePruned else Abandon, s2);
  }

  /** Moving the live file aside; opening a new one is a second step. */
  lemma MoveStep(env: Env, maxBackups: int, s: Sys, now: int) returns (s1: Sys)
    requires Reachable(env, maxBackups, s)
    requires s.sink.Up? && s.sink.hasFile && !s.sink.pruning && LiveRecs(s.disk) != []
    requires Newest(s.disk.rotated, now)
    ensures Reachable(env, maxBackups, s1)
    ensures s1 == s.(disk := Disk(s.disk.rotated + [File(now, LiveRecs(s.disk))], None),
                     sink := s.sink.(hasFile := false))
  {
    s1 := s.(disk := Disk(Insert(s.disk.rotated, File(now, LiveRecs(s.disk))), None),
             sink := s.sink.(hasFile := false));
    InsertNewest(s.disk.rotated, File(now, LiveRecs(s.disk)));
    OneMore(env, maxBackups, s, Rename(now), s1);
  }

  lemma BytesSnoc(recs: seq<Rec>, r: Rec)
    requires r.event != "" && forall i | 0 <= i < |recs| :: recs[i].event != ""
    ensures Bytes(recs + [r]) == Bytes(recs) + Line(r) + "\n"
  {
    assert Lines(recs + [r]) == Lines(recs) + [Line(r)];
    RenderSnoc(Lines(recs), Line(r));
  }

  // ---- The bytes of a modelled directory ------------------------------------------

  predicate Holds(f: RotatedFile, m: File) {
    Readable(m.recs) && f.stamp == m.stamp && f.bytes == Bytes(m.recs)
  }

  predicate SameRotated(rotated: seq<RotatedFile>, d: Disk) {
    |rotated| == |d.rotated| && forall i | 0 <= i < |rotated| :: Holds(rotated[i], d.rotated[i])
  }

  predicate SameLive(live: Option<string>, d: Disk) {
    && live.Some? == d.live.Some?
    && (live.Some? ==> Readable(d.live.value) && live.value == Bytes(d.live.value))
  }

  function FileBytes(rotated: seq<RotatedFile>, live: Option<string>): seq<string> {
    seq(|rotated|, i requires 0 <= i < |rotated| => rotated[i].bytes) +
    (if live.Some? then [live.value] else [])
  }

  lemma FileBytesAgree(rotated: seq<RotatedFile>, live: Option<string>, d: Disk)
    requires SameRotated(rotated, d) && SameLive(live, d)
    ensures NonEmptyEvents(LogFiles(d)) && AllBytes(LogFiles(d)) == FileBytes(rotated, live)
  {
  }

  /** Appending a record appends its sealed line to the live file. */
  lemma AppendedBytes(env: Env, s: Sys, event: string, rotated: seq<RotatedFile>, live: string)
    requires s.sink.Up? && Sealable(event)
    requires SameRotated(rotated, s.disk) && SameLive(Some(live), s.disk)
    ensures var d := Appended(s, env, event).disk;
            && SameRotated(rotated, d)
            && SameLive(Some(live + Seal(env, s.sink.chain, event).value.0 + "\n"), d)
  {
    BytesSnoc(s.disk.live.value, SealedRec(env, s.sink.chain, event));
  }

  /** The prune event of the oldest backup names its newest state. */
  lemma PruneEvent(env: Env, maxBackups: int, s: Sys, encode: (int, Option<ChainState>) -> string, stamp: int)
    requires Faithful(env) && EncodesPrunes(env, encode) && Reachable(env, maxBackups, s) && s.disk.rotated != []
    ensures var recs := s.disk.rotated[0].recs;
            && Readable(recs)
            && var event := encode(stamp, LastChainState(env, Bytes(recs)));
               Loggable(event) && PruneNames(env, recs, event)
  {
    ReachableIsFine(env, maxBackups, s);
    OldestIsGood(env, s.disk);
    LastStateOfBytes(env, s.disk.rotated[0].recs);
  }

  /** The directory, the chain and the handle are those of a run. */
  ghost predicate InRun(env: Env, maxBackups: int, rotated: seq<RotatedFile>, live: Option<string>,
                        chain: Chain, hasFile: bool, s: Sys) {
    && Reachable(env, maxBackups, s) && s.sink == Up(chain, hasFile, false)
    && SameRotated(rotated, s.disk) && SameLive(live, s.disk)
  }

  /** What writing a record does to the bytes of the directory. */
  lemma RecordEffect(env: Env, maxBackups: int, rotated: seq<RotatedFile>, live: string, chain: Chain,
                     s: Sys, event: string)
    requires InRun(env, maxBackups, rotated, Some(live), chain, true, s) && Loggable(event)
    ensures var s' := Appended(s, env, event);
            InRun(env, maxBackups, rotated, Some(live + Seal(env, chain, event).value.0 + "\n"),
                  Commit(NextState(env, chain, event)), true, s')
  {
    OneMore(env, maxBackups, s, Append(event), Appended(s, env, event));
    AppendedBytes(env, s, event, rotated, live);
  }

  /** What pruning does to them. */
  lemma PruneEffect(env: Env, maxBackups: int, encode: (int, Option<ChainState>) -> string,
                    rotated: seq<RotatedFile>, live: string, chain: Chain, s: Sys, deletes: bool)
      returns (s2: Sys)
    requires Faithful(env) && EncodesPrunes(env, encode)
    requires InRun(env, maxBackups, rotated, Some(live), chain, true, s) && 0 < maxBackups < |rotated|
    ensures var event := encode(rotated[0].stamp, LastChainState(env, rotated[0].bytes));
            && Sealable(event) && s2.written == Appended(s, env, event).written
            && InRun(env, maxBackups, if deletes then rotated[1..] else rotated,
                     Some(live + Seal(env, chain, event).value.0 + "\n"),
                     Commit(NextState(env, chain, event)), true, s2)
  {
    assert Holds(rotated[0], s.disk.rotated[0]);
    PruneEvent(env, maxBackups, s, encode, rotated[0].stamp);
    var event := encode(rotated[0].stamp, LastChainState(env, rotated[0].bytes));
    s2 := PruneSteps(env, maxBackups, s, event, deletes);
    AppendedBytes(env, s, event, rotated, live);
  }

  /** How one prune ends. */
  datatype PruneResult = Pruned | NotRecorded | NotDeleted

  /** Which operations of a rotation succeed. */
  datatype RotateFaults = RotateFaults(
    close: bool, rename: bool, reopen: bool, open: bool, list: bool, prune: nat -> PruneResult)

  /** The directory is what a run left that is no longer up. */
  ghost predicate LeftBy(env: Env, maxBackups: int, rotated: seq<RotatedFile>, live: Option<string>, s: Sys) {
    Reachable(env, maxBackups, s) && s.sink.Down? && SameRotated(rotated, s.disk) && SameLive(live, s.disk)
  }

  lemma OpenEffect(env: Env, maxBackups: int, rotated: seq<RotatedFile>, live: Option<string>, s: Sys) returns (s': Sys)
    requires LeftBy(env, maxBackups, rotated, live, s)
    ensures s'.written == s.written
    ensures InRun(env, maxBackups, rotated, Some(if live.Some? then live.value else ""),
                  Resume(env, FileBytes(rotated, live)), true, s')
  {
    FileBytesAgree(rotated, live, s.disk);
    s' := s.(disk := s.disk.(live := Some(LiveRecs(s.disk))),
             sink := Up(Resume(env, FileBytes(rotated, live)), true, false));
    OneMore(env, maxBackups, s, Start, s');
  }

  class FileSink {
    const env: Env
    const maxSize: int
    const maxBackups: int
    const encodePrune: (int, Option<ChainState>) -> string
    // The log directory.
    var rotated: seq<RotatedFile>
    var live: Option<string>
    // The sink's own fields; hasFile says that its file handle works.
    var hasFile: bool
    var size: nat
    var chain: Chain
    ghost var sys: Sys

    predicate Sized()
      reads this
    {
      hasFile ==> live.Some? && size == |live.value|
    }

    ghost predicate Valid()
      reads this
    {
      && Faithful(env) && EncodesPrunes(env, encodePrune) && Sized()
      && InRun(env, maxBackups, rotated, live, chain, hasFile, sys)
    }

    /** Whatever has been called so far, and whatever failed in it, the log
        verifies: the verifier cannot read it if and only if a record's line has
        16 MiB or more, and otherwise finds every record and no problem. */
    method Verify() returns (report: Report, readError: bool)
      requires Valid()
      ensures readError <==> Overlong(Log(sys.disk))
      ensures !readError ==> ReportsAll(report, Log(sys.disk))
    {
      ghost var trace :| Ends(env, maxBackups, trace, sys);
      FileBytesAgree(rotated, live, sys.disk);
      report, readError := VerifyLog(env, FileBytes(rotated, live), maxBackups, trace);
    }

    /** OpenFileSink. On a directory left by an earlier run, crashed or not, it
        continues that run. */
    constructor (env: Env, maxSize: int, maxBackups: int, encodePrune: (int, Option<ChainState>) -> string,
                 rotated: seq<RotatedFile>, live: Option<string>, ghost sys: Sys)
      ensures this.env == env && this.maxSize == maxSize && this.maxBackups == maxBackups
      ensures this.rotated == rotated && hasFile && Sized()
      ensures this.live == Some(if live.Some? then live.value else "")
      ensures chain == Resume(env, FileBytes(rotated, live))
      ensures Faithful(env) && EncodesPrunes(env, encodePrune) && LeftBy(env, maxBackups, rotated, live, sys) ==>
                Valid() && this.sys.written == sys.written
    {
      var c := ResumeChain(env, FileBytes(rotated, live));
      ghost var s: Sys := sys;
      if LeftBy(env, maxBackups, rotated, live, sys) {
        s := OpenEffect(env, maxBackups, rotated, live, sys);
      }
      this.env, this.maxSize, this.maxBackups, this.encodePrune := env, maxSize, maxBackups, encodePrune;
      this.rotated, this.chain, this.hasFile := rotated, c, true;
      this.live := Some(if live.Some? then live.value else "");
      this.size := if live.Some? then |live.value| else 0;
      this.sys := s;
    }

    /** appendLocked: seal, write one line, commit; or nothing at all. */
    method AppendLocked(event: string, writes: bool) returns (ok: bool)
      requires Sized()
      modifies `live, `size, `chain
      ensures Sized()
      ensures ok <==> Sealable(event) && writes && hasFile
      ensures !ok ==> live == old(live) && chain == old(chain) && size == old(size)
      ensures ok ==> live == Some(old(live).value + Seal(env, old(chain), event).value.0 + "\n")
      ensures ok ==> chain == Commit(NextState(env, old(chain), event))
    {
      var sealed := Seal(env, chain, event);
      ok := sealed.Some? && writes && hasFile;
      if ok {
        var (line, st) := sealed.value;
        live := Some(live.value + line + "\n");
        size := |live.value|;
        chain := Commit(st);
      }
    }

    /** rotateLocked: move the live file aside, open a new one and prune old
        backups, recording each prune in a sealed record before the delete. When
        something fails the rotation ends there: files are only ever moved, and
        only oldest backups go. */
    method RotateLocked(now: int, f: RotateFaults) returns (ok: bool)
      requires Valid() && (hasFile ==> live.value != "")
      requires forall i | 0 <= i < |rotated| :: rotated[i].stamp < now
      modifies this
      ensures Valid() && old(sys.written) <= sys.written
      ensures ok ==> hasFile && (maxBackups > 0 ==> |rotated| <= maxBackups)
      ensures !(old(hasFile) && f.close && f.rename) ==> !ok && rotated == old(rotated) && live == old(live)
      ensures old(hasFile) && f.close && f.rename && !f.open ==> !ok && !hasFile && live == None
      ensures old(hasFile) && f.close && f.rename ==>
                EndOfBackups(rotated, old(rotated) + [RotatedFile(now, old(live).value)])
    {
      if !hasFile {
        return false;
      }
      if !f.close || !f.rename {
        if !f.close || !f.reopen {
          LoseFile();
        }
        return false;
      }
      MoveAside(now);
      if !f.open {
        return false;
      }
      Reopen();
      if maxBackups <= 0 {
        return true;
      }
      if !f.list {
        return false;
      }
      ok := PruneAll(f.prune);
    }

    /** The handle is gone; the files are as they were. */
    method LoseFile()
      requires Valid() && hasFile
      modifies `hasFile, `sys
      ensures Valid() && sys.written == old(sys.written)
    {
      ghost var s' := sys.(sink := sys.sink.(hasFile := false));
      OneMore(env, maxBackups, sys, LoseHandle, s');
      hasFile, sys := false, s';
    }

    method MoveAside(now: int)
      requires Valid() && hasFile && live.value != ""
      requires forall i | 0 <= i < |rotated| :: rotated[i].stamp < now
      modifies this
      ensures Valid() && sys.written == old(sys.written) && !hasFile
      ensures live == None && rotated == old(rotated) + [RotatedFile(now, old(live).value)]
    {
      ghost var d := sys.disk;
      assert LiveRecs(d) != [];
      forall i | 0 <= i < |d.rotated| ensures d.rotated[i].stamp < now {
        assert Holds(rotated[i], d.rotated[i]);
      }
      ghost var s' := MoveStep(env, maxBackups, sys, now);
      rotated := rotated + [RotatedFile(now, live.value)];
      live, hasFile, sys := None, false, s';
    }

    method Reopen()
      requires Valid() && !hasFile && live.None?
      modifies `live, `size, `hasFile, `sys
      ensures Valid() && sys.written == old(sys.written) && hasFile && live == Some("")
    {
      ghost var s' := sys.(disk := sys.disk.(live := Some(LiveRecs(sys.disk))), sink := sys.sink.(hasFile := true));
      OneMore(env, maxBackups, sys, AuditLog.Reopen, s');
      live, size, hasFile, sys := Some(""), 0, true, s';
    }

    method PruneAll(prune: nat -> PruneResult) returns (ok: bool)
      requires Valid() && hasFile && 0 < maxBackups && rotated != []
      modifies this
      ensures Valid() && old(sys.written) <= sys.written && hasFile
      ensures ok ==> |rotated| <= maxBackups
      ensures EndOfBackups(rotated, old(rotated))
    {
      var k := 0;
      while |rotated| > maxBackups
        invariant Valid() && old(sys.written) <= sys.written && hasFile
        invariant EndOfBackups(rotated, old(rotated))
        decreases |rotated|
      {
        var result := prune(k);
        if result.NotRecorded? {
          return false;
        }
        EndWithoutOldest(rotated, old(rotated));
        PruneOldest(result.Pruned?);
        if result.NotDeleted? {
          return false;
        }
        k := k + 1;
      }
      return true;
    }

    method PruneOldest(deletes: bool)
      requires Valid() && hasFile && 0 < maxBackups < |rotated|
      modifies this
      ensures Valid() && old(sys.written) <= sys.written && hasFile
      ensures rotated == if deletes then old(rotated)[1..] else old(rotated)
    {
      ghost var s' := PruneEffect(env, maxBackups, encodePrune, rotated, live.value, chain, sys, deletes);
      var event := encodePrune(rotated[0].stamp, LastChainState(env, rotated[0].bytes));
      var _ := AppendLocked(event, true);
      rotated, sys := if deletes then rotated[1..] else rotated, s';
    }

    predicate Overflows(event: string)
      reads this
    {
      maxSize > 0 && size > 0 && size + |event| + 128 > maxSize
    }

    /** Write: rotate first when the line would overflow the file, then append.
        On success the event is the newest record ever written. */
    method Write(event: string, now: int, f: RotateFaults, writes: bool) returns (ok: bool)
      requires Valid() && (Sealable(event) ==> Loggable(event))
      requires forall i | 0 <= i < |rotated| :: rotated[i].stamp < now
      modifies this
      ensures Valid() && old(sys.written) <= sys.written
      ensures ok ==> Sealable(event) && writes
                     && exists w :: old(sys.written) <= w && WroteOne(w, sys.written, event)
      ensures !old(Overflows(event)) ==> rotated == old(rotated) && (ok <==> Sealable(event) && writes && old(hasFile))
      ensures !old(Overflows(event)) && !ok ==> live == old(live) && sys == old(sys)
    {
      if Overflows(event) {
        var rotatedOk := RotateLocked(now, f);
        if !rotatedOk {
          return false;
        }
      }
      ok := Record(event, writes);
    }

    /** appendLocked as a step of the run. */
    method Record(event: string, writes: bool) returns (ok: bool)
      requires Valid() && (Sealable(event) ==> Loggable(event))
      modifies `live, `size, `chain, `sys
      ensures Valid()
      ensures ok <==> Sealable(event) && writes && hasFile
      ensures ok ==> WroteOne(old(sys.written), sys.written, event)
      ensures !ok ==> live == old(live) && sys == old(sys)
    {
      if Sealable(event) && hasFile {
        RecordEffect(env, maxBackups, rotated, live.value, chain, sys, event);
      }
      ghost var s' := if hasFile then Appended(sys, env, event) else sys;
      ok := AppendLocked(event, writes);
      if ok {
        assert s'.written == sys.written + [SealedRec(env, sys.sink.chain, event)];
        sys := s';
      }
    }
  }

  /** One more record was written, and it is the event. */
  predicate WroteOne(before: seq<Rec>, after: seq<Rec>, event: string) {
    |after| == |before| + 1 && before <= after && after[|before|].event == TrimSpace(event)
  }

  lemma EndWithoutOldest(rotated: seq<RotatedFile>, all: seq<RotatedFile>)
    requires EndOfBackups(rotated, all) && |rotated| > 1
    ensures EndOfBackups(rotated[1..], all)
  {
    assert all[|all| - |rotated|..][1..] == all[|all| - |rotated| + 1..];
  }

  /** Only oldest backups are missing from rotated. */
  predicate EndOfBackups(rotated: seq<RotatedFile>, all: seq<RotatedFile>) {
    |rotated| <= |all| && rotated == all[|all| - |rotated|..] && (all != [] ==> rotated != [])
  }
}
