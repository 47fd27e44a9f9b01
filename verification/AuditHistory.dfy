/** Tampering with the log of a run: whatever is put in place of its files, a clean
    report means that the chained part is a slice of what the run wrote. */
module AuditHistory {
  import opened Text
  import opened ChainCodec
  import opened AuditVerify
  import opened LogBytes
  import opened AuditLog
  import opened AuditSoundness

  /** The records of a run as they were put under the MAC. */
  function History(all: seq<Rec>): seq<Sealed> {
    seq(|all|, i requires 0 <= i < |all| => Sealed(all[i].st.seqNo, all[i].st.prev, all[i].event))
  }

  lemma HistoryIsHonest(env: Env, all: seq<Rec>)
    requires OneChain(env, all)
    ensures Honest(env, History(all))
  {
    var h := History(all);
    forall i | 0 <= i < |h| ensures h[i].seqNo < TWO64 && '\n' !in h[i].event {
      assert GoodRec(env, all[i]);
    }
    forall i | 0 < i < |h| ensures FollowsAt(env, h, i) {
      assert ContinuesAt(all, i) && GoodRec(env, all[i - 1]);
    }
  }

  /** Everything a run ever wrote is one honest history. */
  lemma RunIsHonest(env: Env, maxBackups: int, trace: seq<Sys>)
    requires Faithful(env) && Run(env, maxBackups, trace)
    ensures Honest(env, History(trace[|trace| - 1].written))
  {
    RunSeals(env, maxBackups, trace);
    HistoryIsHonest(env, trace[|trace| - 1].written);
  }

  // ---- Events read from a text hold no line break -----------------------------------

  lemma {:induction false} ScanIsSingle(text: string)
    ensures SingleLine(Scan(text))
    decreases |text|
  {
    if text != "" {
      var i := IndexOf(text, '\n');
      if i < |text| {
        ScanIsSingle(text[i + 1..]);
      }
    }
  }

  lemma {:induction false} TrimLeftPart(s: string)
    ensures forall c | c in TrimLeft(s) :: c in s
  {
    if s != "" && IsSpace(s[0]) {
      TrimLeftPart(s[1..]);
    }
  }

  lemma {:induction false} TrimRightPart(s: string)
    ensures forall c | c in TrimRight(s) :: c in s
  {
    if s != "" && IsSpace(s[|s| - 1]) {
      TrimRightPart(s[..|s| - 1]);
    }
  }

  lemma SplitIsSingle(env: Env, line: string)
    requires Faithful(env) && '\n' !in line && env.split(TrimSpace(line)).Chained?
    ensures '\n' !in env.split(TrimSpace(line)).event
  {
    TrimRightPart(line);
    TrimLeftPart(TrimRight(line));
    TrimLeftPart(line);
    TrimRightPart(TrimLeft(line));
    var t := TrimSpace(line);
    assert '\n' !in t;
    assert env.split(t) == SplitChained(env.decode, t);
  }

  lemma {:induction false} ViewIsSingle(env: Env, lines: seq<string>)
    requires Faithful(env) && SingleLine(lines)
    ensures SingleLines(View(env, lines))
  {
    if lines != [] {
      var n := |lines| - 1;
      ViewIsSingle(env, lines[..n]);
      if env.split(TrimSpace(lines[n])).Chained? {
        SplitIsSingle(env, lines[n]);
      }
    }
  }

  // ---- The main result ----------------------------------------------------------------

  /** Any bytes at all in place of the log of a run: they verify if and only if
      they hold no chained record, or their chained records are a contiguous
      slice of what the run wrote that starts at record 1 or at a boundary which
      a sealed audit.pruned record in it names. */
  lemma AlteredLog(env: Env, maxBackups: int, trace: seq<Sys>, files: seq<string>)
    requires Faithful(env) && Run(env, maxBackups, trace)
    requires var hs := [History(trace[|trace| - 1].written)];
             CollisionFree(env, hs) && Unforgeable(env, hs, View(env, Scan(OpenLog(files))))
    ensures var h, rs := History(trace[|trace| - 1].written), View(env, Scan(OpenLog(files)));
            Clean(env, rs) <==>
              || Leading(rs) == |rs|
              || exists a: nat :: SliceAt(env, rs, Leading(rs), h, a) && Accountable(env, rs, Leading(rs), h, a)
  {
    var h, rs := History(trace[|trace| - 1].written), View(env, Scan(OpenLog(files)));
    RunIsHonest(env, maxBackups, trace);
    ScanIsSingle(OpenLog(files));
    ViewIsSingle(env, Scan(OpenLog(files)));
    AlteredRecords(env, h, rs);
  }

  lemma AlteredRecords(env: Env, h: seq<Sealed>, rs: seq<Split>)
    requires HexMacs(env) && Honest(env, h) && SingleLines(rs)
    requires CollisionFree(env, [h]) && Unforgeable(env, [h], rs)
    ensures Clean(env, rs) <==>
              || Leading(rs) == |rs|
              || exists a: nat :: SliceAt(env, rs, Leading(rs), h, a) && Accountable(env, rs, Leading(rs), h, a)
  {
    CleanExactly(env, [h], rs);
    if s, a :| AccountableSlice(env, [h], rs, s, a) {
      assert [h][s] == h;
    }
    if a: nat :| SliceAt(env, rs, Leading(rs), h, a) && Accountable(env, rs, Leading(rs), h, a) {
      assert AccountableSlice(env, [h], rs, 0, a);
    }
  }
}
