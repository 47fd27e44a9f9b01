/** The one-pass log verifier, the exact shape of the logs it accepts, and what
    that shape means when MACs cannot be forged. */
module AuditVerify {
  import opened Text
  import opened ChainCodec

  // ---- The shape of a clean log ---------------------------------------------

  function Gather<T>(f: string -> seq<T>, lines: seq<string>): seq<T> {
    if lines == [] then [] else Gather(f, lines[..|lines| - 1]) + f(lines[|lines| - 1])
  }

  /** What the verifier sees of a line: nothing if it is blank. */
  function Reader(env: Env): string -> seq<Split> {
    (line: string) => if TrimSpace(line) == "" then [] else [env.split(TrimSpace(line))]
  }

  function View(env: Env, lines: seq<string>): seq<Split> {
    Gather(Reader(env), lines)
  }

  predicate Genesis(st: ChainState) {
    st.seqNo == 1 && st.prev == ""
  }

  predicate Linked(a: ChainState, b: ChainState) {
    b.seqNo == SeqSucc(a.seqNo) && b.prev == a.mac && !Genesis(b)
  }

  /** Record i continues record i - 1. */
  predicate LinkedAt(rs: seq<Split>, i: int) {
    0 < i < |rs| && rs[i - 1].Chained? && rs[i].Chained? && Linked(rs[i - 1].st, rs[i].st)
  }

  predicate MacOk(env: Env, r: Split) {
    r.Chained? && env.mac(r.st.seqNo, r.st.prev, r.event) == r.st.mac
  }

  /** r is an authentic audit.pruned record whose last_seq/last_mac is key. */
  predicate Claims(env: Env, r: Split, key: string) {
    MacOk(env, r) && env.claim(r.event) == Some(key)
  }

  /** The key an audit.pruned record must carry to explain a log starting at st. */
  function StartKey(env: Env, st: ChainState): string {
    env.key(SeqPred(st.seqNo), st.prev)
  }

  function Leading(rs: seq<Split>): (k: nat)
    ensures k <= |rs|
    ensures forall i | 0 <= i < k :: rs[i].Unchained?
    ensures k < |rs| ==> !rs[k].Unchained?
  {
    if rs == [] || !rs[0].Unchained? then 0 else 1 + Leading(rs[1..])
  }

  /** Unchained lines first, then one authentic, gap-free segment. */
  predicate Segment(env: Env, rs: seq<Split>, k: nat) {
    && (forall i | k <= i < |rs| :: MacOk(env, rs[i]))
    && (forall i | k < i < |rs| :: LinkedAt(rs, i))
  }

  predicate StartExplained(env: Env, rs: seq<Split>, k: nat) {
    k < |rs| && rs[k].Chained? ==>
      || Genesis(rs[k].st)
      || exists j | 0 <= j < |rs| :: Claims(env, rs[j], StartKey(env, rs[k].st))
  }

  predicate Clean(env: Env, rs: seq<Split>) {
    Segment(env, rs, Leading(rs)) && StartExplained(env, rs, Leading(rs))
  }

  // ---- The verifier ---------------------------------------------------------

  datatype Reason =
    UnchainedInside | BadRecord | Restarted | Gap | LinkMismatch | MacMismatch | UnexplainedStart

  datatype Problem = Problem(line: nat, seqNo: nat, reason: Reason)

  datatype Report = Report(
    records: nat, chained: nat, unchained: nat, segments: nat,
    lastSeq: nat, lastMac: string, problems: seq<Problem>)

  datatype OpenStart = OpenStart(line: nat, seqNo: nat, prev: string)

  const MAX_PROBLEMS := 100

  // bufio.Scanner gives up on a line that does not fit its 16 MiB buffer.
  const MAX_LINE := 0x100_0000

  predicate TooLong(line: string) { |line| >= MAX_LINE }

  function AddProblem(ps: seq<Problem>, p: Problem): (r: seq<Problem>)
    requires |ps| <= MAX_PROBLEMS
    ensures r != [] && |r| <= MAX_PROBLEMS
  {
    if |ps| < MAX_PROBLEMS then ps + [p] else ps
  }

  lemma {:induction false} LeadingSnoc(rs: seq<Split>, r: Split)
    ensures Leading(rs + [r]) ==
            if Leading(rs) == |rs| && r.Unchained? then |rs| + 1 else Leading(rs)
  {
    if rs == [] {
      assert (rs + [r])[1..] == [];
    } else if rs[0].Unchained? {
      assert (rs + [r])[1..] == rs[1..] + [r];
      LeadingSnoc(rs[1..], r);
    }
  }

  /** The verifier's per-record checks, against the records before. */
  predicate Extends(env: Env, rs: seq<Split>, r: Split) {
    if r.Unchained? then Leading(rs) == |rs|
    else MacOk(env, r) && (Leading(rs) < |rs| ==> rs[|rs| - 1].Chained? && Linked(rs[|rs| - 1].st, r.st))
  }

  lemma SegmentGrows(env: Env, rs: seq<Split>, r: Split)
    requires Segment(env, rs, Leading(rs)) && Extends(env, rs, r)
    ensures Segment(env, rs + [r], Leading(rs + [r]))
  {
    LeadingSnoc(rs, r);
    var rs' := rs + [r];
    forall i | Leading(rs') <= i < |rs'| ensures MacOk(env, rs'[i]) {
      assert rs'[i] == if i < |rs| then rs[i] else r;
    }
    forall i | Leading(rs') < i < |rs'| ensures LinkedAt(rs', i) {
      assert rs'[i - 1] == rs[i - 1];
      assert i < |rs| ==> rs'[i] == rs[i] && LinkedAt(rs, i);
    }
  }

  lemma SegmentShrinks(env: Env, rs: seq<Split>, r: Split)
    requires Segment(env, rs + [r], Leading(rs + [r]))
    ensures Segment(env, rs, Leading(rs)) && Extends(env, rs, r)
  {
    LeadingSnoc(rs, r);
    var rs', k := rs + [r], Leading(rs);
    assert rs'[|rs|] == r;
    forall i | k <= i < |rs| ensures MacOk(env, rs[i]) {
      assert rs[i] == rs'[i];
    }
    forall i | k < i < |rs| ensures LinkedAt(rs, i) {
      assert LinkedAt(rs', i);
    }
    if k < |rs| {
      assert LinkedAt(rs', |rs|);
    }
  }

  /** One more record keeps the shape exactly when it passes those checks. */
  lemma SegmentSnoc(env: Env, rs: seq<Split>, r: Split)
    ensures Segment(env, rs + [r], Leading(rs + [r])) <==>
            Segment(env, rs, Leading(rs)) && Extends(env, rs, r)
  {
    if Segment(env, rs + [r], Leading(rs + [r])) {
      SegmentShrinks(env, rs, r);
    }
    if Segment(env, rs, Leading(rs)) && Extends(env, rs, r) {
      SegmentGrows(env, rs, r);
    }
  }

  lemma ViewSnoc(env: Env, lines: seq<string>, n: nat)
    requires n < |lines|
    ensures View(env, lines[..n + 1]) == View(env, lines[..n]) + Reader(env)(lines[n])
  {
    assert lines[..n + 1][..n] == lines[..n];
  }

  /** The state of the verifier's scan after the records rs. */
  ghost predicate Scanned(env: Env, rs: seq<Split>, report: Report, inChain: bool, prevSeq: nat,
                          prevMac: string, starts: seq<OpenStart>, pruned: set<string>)
  {
    var k := Leading(rs);
    && |report.problems| <= MAX_PROBLEMS
    && report.records == |rs| == report.chained + report.unchained
    && (forall key :: key in pruned <==> exists i | 0 <= i < |rs| :: Claims(env, rs[i], key))
    && (report.problems == [] <==> Segment(env, rs, k))
    && (report.problems == [] ==>
          && report.unchained == k
          && inChain == (k < |rs|)
          && report.segments == (if inChain then 1 else 0)
          && (inChain ==> rs[|rs| - 1].Chained? && rs[|rs| - 1].st.seqNo == prevSeq == report.lastSeq
                          && rs[|rs| - 1].st.mac == prevMac == report.lastMac)
          && |starts| == (if inChain && !Genesis(rs[k].st) then 1 else 0)
          && (starts != [] ==> starts[0].seqNo == rs[k].st.seqNo && starts[0].prev == rs[k].st.prev))
  }

  lemma ClaimsSnoc(env: Env, rs: seq<Split>, r: Split, pruned: set<string>, pruned': set<string>)
    requires forall key :: key in pruned <==> exists i | 0 <= i < |rs| :: Claims(env, rs[i], key)
    requires pruned' == if r.Chained? && MacOk(env, r) && env.claim(r.event).Some?
                        then pruned + {env.claim(r.event).value} else pruned
    ensures forall key :: key in pruned' <==> exists i | 0 <= i < |rs + [r]| :: Claims(env, (rs + [r])[i], key)
  {
    var rs' := rs + [r];
    forall key ensures key in pruned' <==> exists i | 0 <= i < |rs'| :: Claims(env, rs'[i], key) {
      assert key in pruned' <==> key in pruned || Claims(env, r, key);
      if i :| 0 <= i < |rs| && Claims(env, rs[i], key) {
        assert rs'[i] == rs[i];
      }
      assert rs'[|rs|] == r;
    }
  }

  /** VerifyChain. A clean report says exactly that the log has the clean shape:
      the 100-problem cap never hides a problem, and no problem is reported for
      a log of that shape. */
  method VerifyChain(env: Env, lines: seq<string>) returns (report: Report, readError: bool)
    ensures readError <==> exists i | 0 <= i < |lines| :: TooLong(lines[i])
    ensures !readError ==> (report.problems == [] <==> Clean(env, View(env, lines)))
    ensures |report.problems| <= MAX_PROBLEMS
    ensures !readError ==> report.records == |View(env, lines)| == report.chained + report.unchained
    ensures !readError && report.problems == [] ==>
              && report.unchained == Leading(View(env, lines))
              && report.segments == (if report.chained > 0 then 1 else 0)
              && (report.chained > 0 ==>
                    var rs := View(env, lines);
                    rs[|rs| - 1].Chained? && report.lastSeq == rs[|rs| - 1].st.seqNo
                    && report.lastMac == rs[|rs| - 1].st.mac)
  {
    var starts, pruned;
    report, starts, pruned, readError := ScanRecords(env, lines);
    if !readError {
      ScannedVerdict(env, View(env, lines), report, starts, pruned);
      report := CheckStarts(env, report, starts, pruned);
    }
  }

  /** What the first pass leaves for the verdict. */
  ghost predicate Summary(env: Env, rs: seq<Split>, report: Report, starts: seq<OpenStart>, pruned: set<string>) {
    exists inChain, prevSeq, prevMac :: Scanned(env, rs, report, inChain, prevSeq, prevMac, starts, pruned)
  }

  lemma ScannedVerdict(env: Env, rs: seq<Split>, report: Report, starts: seq<OpenStart>, pruned: set<string>)
    requires Summary(env, rs, report, starts, pruned)
    ensures |report.problems| <= MAX_PROBLEMS
    ensures (report.problems == [] && forall i | 0 <= i < |starts| :: StartText(env, starts[i]) in pruned)
            <==> Clean(env, rs)
    ensures report.records == |rs| == report.chained + report.unchained
    ensures report.problems == [] ==>
              && report.unchained == Leading(rs)
              && report.segments == (if report.chained > 0 then 1 else 0)
              && (report.chained > 0 ==>
                    rs[|rs| - 1].Chained? && report.lastSeq == rs[|rs| - 1].st.seqNo
                    && report.lastMac == rs[|rs| - 1].st.mac)
  {
    var k := Leading(rs);
    if report.problems == [] && k < |rs| {
      assert rs[k].Chained?;
      if !Genesis(rs[k].st) {
        assert StartText(env, starts[0]) == StartKey(env, rs[k].st);
      }
    }
  }

  method ScanRecords(env: Env, lines: seq<string>)
    returns (report: Report, starts: seq<OpenStart>, pruned: set<string>, readError: bool)
    ensures readError <==> exists i | 0 <= i < |lines| :: TooLong(lines[i])
    ensures |report.problems| <= MAX_PROBLEMS
    ensures !readError ==> Summary(env, View(env, lines), report, starts, pruned)
  {
    report := Report(0, 0, 0, 0, 0, "", []);
    readError := false;
    var prevSeq, prevMac, inChain := 0, "", false;
    starts, pruned := [], {};
    NothingScanned(env, lines);
    for n := 0 to |lines|
      invariant forall i | 0 <= i < n :: !TooLong(lines[i])
      invariant ScannedLines(env, lines, n, report, inChain, prevSeq, prevMac, starts, pruned)
    {
      if TooLong(lines[n]) {
        readError := true;
        SummaryOf(env, lines, n, report, inChain, prevSeq, prevMac, starts, pruned);
        return;
      }
      report, inChain, prevSeq, prevMac, starts, pruned :=
        ScanLine(env, lines, n, report, inChain, prevSeq, prevMac, starts, pruned);
    }
    SummaryOf(env, lines, |lines|, report, inChain, prevSeq, prevMac, starts, pruned);
  }

  lemma NothingScanned(env: Env, lines: seq<string>)
    ensures ScannedLines(env, lines, 0, Report(0, 0, 0, 0, 0, "", []), false, 0, "", [], {})
  {
  }

  lemma SummaryOf(env: Env, lines: seq<string>, n: nat, report: Report, inChain: bool, prevSeq: nat,
                  prevMac: string, starts: seq<OpenStart>, pruned: set<string>)
    requires ScannedLines(env, lines, n, report, inChain, prevSeq, prevMac, starts, pruned)
    ensures |report.problems| <= MAX_PROBLEMS
    ensures n == |lines| ==> Summary(env, View(env, lines), report, starts, pruned)
  {
    assert lines[..|lines|] == lines;
  }

  /** The scan state after the first n lines. */
  ghost predicate ScannedLines(env: Env, lines: seq<string>, n: nat, report: Report, inChain: bool, prevSeq: nat,
                               prevMac: string, starts: seq<OpenStart>, pruned: set<string>)
  {
    n <= |lines| && Scanned(env, View(env, lines[..n]), report, inChain, prevSeq, prevMac, starts, pruned)
  }

  method ScanLine(env: Env, lines: seq<string>, n: nat, report0: Report, inChain0: bool,
                  prevSeq0: nat, prevMac0: string, starts0: seq<OpenStart>, pruned0: set<string>)
    returns (report: Report, inChain: bool, prevSeq: nat, prevMac: string, starts: seq<OpenStart>, pruned: set<string>)
    requires n < |lines|
    requires ScannedLines(env, lines, n, report0, inChain0, prevSeq0, prevMac0, starts0, pruned0)
    ensures ScannedLines(env, lines, n + 1, report, inChain, prevSeq, prevMac, starts, pruned)
  {
    ViewSnoc(env, lines, n);
    report, inChain, prevSeq, prevMac, starts, pruned :=
      ScanRaw(env, View(env, lines[..n]), lines[n], n + 1, report0, inChain0, prevSeq0, prevMac0, starts0, pruned0);
  }

  method ScanRaw(env: Env, ghost rs: seq<Split>, raw: string, lineNo: nat, report0: Report, inChain0: bool,
                 prevSeq0: nat, prevMac0: string, starts0: seq<OpenStart>, pruned0: set<string>)
    returns (report: Report, inChain: bool, prevSeq: nat, prevMac: string, starts: seq<OpenStart>, pruned: set<string>)
    requires Scanned(env, rs, report0, inChain0, prevSeq0, prevMac0, starts0, pruned0)
    ensures Scanned(env, rs + Reader(env)(raw), report, inChain, prevSeq, prevMac, starts, pruned)
  {
    report, inChain, prevSeq, prevMac, starts, pruned := report0, inChain0, prevSeq0, prevMac0, starts0, pruned0;
    var line := TrimSpace(raw);
    if line == "" {
      assert rs + Reader(env)(raw) == rs;
    } else {
      report, inChain, prevSeq, prevMac, starts, pruned :=
        Check(env, rs, env.split(line), lineNo, report, inChain, prevSeq, prevMac, starts, pruned);
    }
  }

  /** After the scan: a log that starts past record 1 needs its explanation. */
  method CheckStarts(env: Env, report0: Report, starts: seq<OpenStart>, pruned: set<string>)
    returns (report: Report)
    requires |report0.problems| <= MAX_PROBLEMS
    ensures |report.problems| <= MAX_PROBLEMS
    ensures report == report0.(problems := report.problems)
    ensures report.problems == [] <==>
            report0.problems == [] && forall i | 0 <= i < |starts| :: StartText(env, starts[i]) in pruned
  {
    report := report0;
    for n := 0 to |starts|
      invariant |report.problems| <= MAX_PROBLEMS
      invariant report == report0.(problems := report.problems)
      invariant report.problems == [] <==>
                report0.problems == [] && forall i | 0 <= i < n :: StartText(env, starts[i]) in pruned
    {
      if StartText(env, starts[n]) !in pruned {
        report := report.(problems :=
          AddProblem(report.problems, Problem(starts[n].line, starts[n].seqNo, UnexplainedStart)));
      }
    }
  }

  function StartText(env: Env, s: OpenStart): string {
    env.key(SeqPred(s.seqNo), s.prev)
  }

  /** The loop body of VerifyChain for one non-blank line. */
  method Check(env: Env, ghost rs: seq<Split>, r: Split, lineNo: nat, report0: Report, inChain0: bool,
               prevSeq0: nat, prevMac0: string, starts0: seq<OpenStart>, pruned0: set<string>)
    returns (report: Report, inChain: bool, prevSeq: nat, prevMac: string, starts: seq<OpenStart>, pruned: set<string>)
    requires Scanned(env, rs, report0, inChain0, prevSeq0, prevMac0, starts0, pruned0)
    ensures Scanned(env, rs + [r], report, inChain, prevSeq, prevMac, starts, pruned)
  {
    inChain, prevSeq, prevMac, starts, pruned := false, prevSeq0, prevMac0, starts0, pruned0;
    if r.Unchained? {
      report := CheckUnchained(env, rs, r, lineNo, report0, inChain0, prevSeq, prevMac, starts, pruned);
    } else if r.Malformed? {
      report := CheckMalformed(env, rs, r, lineNo, report0, inChain0, prevSeq, prevMac, starts, pruned);
    } else {
      report, starts, pruned :=
        CheckChained(env, rs, r, lineNo, report0, inChain0, prevSeq0, prevMac0, starts0, pruned0);
      inChain, prevSeq, prevMac := true, r.st.seqNo, r.st.mac;
    }
  }

  method CheckUnchained(env: Env, ghost rs: seq<Split>, r: Split, lineNo: nat, report0: Report, inChain: bool,
                        ghost prevSeq: nat, ghost prevMac: string, ghost starts: seq<OpenStart>, ghost pruned: set<string>)
    returns (report: Report)
    requires r.Unchained? && Scanned(env, rs, report0, inChain, prevSeq, prevMac, starts, pruned)
    ensures Scanned(env, rs + [r], report, false, prevSeq, prevMac, starts, pruned)
  {
    SegmentSnoc(env, rs, r);
    LeadingSnoc(rs, r);
    ClaimsSnoc(env, rs, r, pruned, pruned);
    report := report0.(records := report0.records + 1, unchained := report0.unchained + 1);
    if inChain {
      report := report.(problems := AddProblem(report.problems, Problem(lineNo, 0, UnchainedInside)));
    }
  }

  method CheckMalformed(env: Env, ghost rs: seq<Split>, r: Split, lineNo: nat, report0: Report, ghost inChain: bool,
                        ghost prevSeq: nat, ghost prevMac: string, ghost starts: seq<OpenStart>, ghost pruned: set<string>)
    returns (report: Report)
    requires r.Malformed? && Scanned(env, rs, report0, inChain, prevSeq, prevMac, starts, pruned)
    ensures Scanned(env, rs + [r], report, false, prevSeq, prevMac, starts, pruned)
  {
    SegmentSnoc(env, rs, r);
    LeadingSnoc(rs, r);
    ClaimsSnoc(env, rs, r, pruned, pruned);
    report := report0.(records := report0.records + 1, chained := report0.chained + 1,
                       problems := AddProblem(report0.problems, Problem(lineNo, 0, BadRecord)));
  }

  method CheckChained(env: Env, ghost rs: seq<Split>, r: Split, lineNo: nat, report0: Report, inChain: bool,
                      prevSeq: nat, prevMac: string, starts0: seq<OpenStart>, pruned0: set<string>)
    returns (report: Report, starts: seq<OpenStart>, pruned: set<string>)
    requires r.Chained? && Scanned(env, rs, report0, inChain, prevSeq, prevMac, starts0, pruned0)
    ensures Scanned(env, rs + [r], report, true, r.st.seqNo, r.st.mac, starts, pruned)
  {
    SegmentSnoc(env, rs, r);
    LeadingSnoc(rs, r);
    var st := r.st;
    report, starts, pruned := report0, starts0, pruned0;
    report := report.(records := report.records + 1, chained := report.chained + 1);
    if Genesis(st) {
      if inChain {
        report := report.(problems := AddProblem(report.problems, Problem(lineNo, st.seqNo, Restarted)));
      }
      report := report.(segments := report.segments + 1);
    } else if !inChain {
      starts := starts + [OpenStart(lineNo, st.seqNo, st.prev)];
      report := report.(segments := report.segments + 1);
    } else if st.seqNo != SeqSucc(prevSeq) {
      report := report.(problems := AddProblem(report.problems, Problem(lineNo, st.seqNo, Gap)));
    } else if st.prev != prevMac {
      report := report.(problems := AddProblem(report.problems, Problem(lineNo, st.seqNo, LinkMismatch)));
    }
    if !MacOk(env, r) {
      report := report.(problems := AddProblem(report.problems, Problem(lineNo, st.seqNo, MacMismatch)));
    } else {
      var key := env.claim(r.event);
      if key.Some? {
        pruned := pruned + {key.value};
      }
    }
    ClaimsSnoc(env, rs, r, pruned0, pruned);
    report := report.(lastSeq := st.seqNo, lastMac := st.mac);
  }
}
