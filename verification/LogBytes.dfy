/** The bytes of an audit log made of sealed records: how the files are read
    back as lines, and how the newest chain state is found at the end of a
    file. */
module LogBytes {
  import opened Text
  import opened ChainCodec
  import opened AuditVerify

  /** A sealed record: the event bytes and the chain field written with them. */
  datatype Rec = Rec(event: string, st: ChainState)

  ghost predicate GoodRec(env: Env, r: Rec) {
    && |r.event| >= 2 && Trimmed(r.event) && r.event[|r.event| - 1] == '}' && '\n' !in r.event
    && Canonical(r.st) && |r.st.prev| <= 64 && |r.st.mac| <= 64
    && r.st.mac == env.mac(r.st.seqNo, r.st.prev, r.event)
  }

  function Line(r: Rec): string
    requires r.event != ""
  {
    SealedLine(r.event, r.st)
  }

  function Lines(recs: seq<Rec>): seq<string>
    requires forall i | 0 <= i < |recs| :: recs[i].event != ""
  {
    seq(|recs|, i requires 0 <= i < |recs| => Line(recs[i]))
  }

  /** A file holding these lines. */
  function Render(lines: seq<string>): string {
    if lines == [] then "" else lines[0] + "\n" + Render(lines[1..])
  }

  ghost predicate GoodRecs(env: Env, recs: seq<Rec>) {
    forall i | 0 <= i < |recs| :: GoodRec(env, recs[i])
  }

  lemma {:induction false} RenderSnoc(lines: seq<string>, line: string)
    ensures Render(lines + [line]) == Render(lines) + line + "\n"
  {
    if lines == [] {
      assert lines + [line] == [line] && [line][1..] == [];
    } else {
      RenderSnoc(lines[1..], line);
      assert (lines + [line])[1..] == lines[1..] + [line];
    }
  }

  lemma LineFacts(env: Env, r: Rec)
    requires Faithful(env) && GoodRec(env, r)
    ensures '\n' !in Line(r) && Line(r) != "" && TrimSpace(Line(r)) == Line(r)
    ensures env.split(Line(r)) == Chained(r.event, r.st)
  {
    var head := r.event[..|r.event| - 1];
    FieldShape(r.st);
    SplitRecovers(env, head, r.st);
    assert head + "}" == r.event;
    assert Line(r)[0] == r.event[0];
    TrimSpaceKeeps(Line(r));
  }

  // ---- Reading the log as lines ---------------------------------------------

  /** bufio.ScanLines over a whole text. */
  function Scan(text: string): seq<string>
    decreases |text|
  {
    if text == "" then []
    else
      var i := IndexOf(text, '\n');
      if i == |text| then [text] else [text[..i]] + Scan(text[i + 1..])
  }

  /** OpenLog: every file followed by a line break. */
  function OpenLog(files: seq<string>): string {
    if files == [] then "" else files[0] + "\n" + OpenLog(files[1..])
  }

  function Parsed(recs: seq<Rec>): seq<Split> {
    seq(|recs|, i requires 0 <= i < |recs| => Chained(recs[i].event, recs[i].st))
  }

  lemma {:induction false} GatherConcat<T>(f: string -> seq<T>, a: seq<string>, b: seq<string>)
    ensures Gather(f, a + b) == Gather(f, a) + Gather(f, b)
  {
    if b == [] {
      assert a + b == a;
    } else {
      var b' := b[..|b| - 1];
      assert (a + b)[..|a + b| - 1] == a + b';
      GatherConcat(f, a, b');
    }
  }

  lemma ScanHead(line: string, rest: string)
    requires '\n' !in line
    ensures Scan(line + "\n" + rest) == [line] + Scan(rest)
  {
    IndexOfConcat(line, '\n', rest);
  }

  lemma GatherScanLine<T>(f: string -> seq<T>, line: string, rest: string)
    requires '\n' !in line
    ensures Gather(f, Scan(line + "\n" + rest)) == f(line) + Gather(f, Scan(rest))
  {
    ScanHead(line, rest);
    GatherConcat(f, [line], Scan(rest));
    assert [line][..0] == [];
    assert Gather(f, [line]) == f(line);
  }

  predicate SingleLine(lines: seq<string>) {
    forall i | 0 <= i < |lines| :: '\n' !in lines[i]
  }

  /** g reads a text line by line, f a single line. */
  ghost predicate ReadsByLine<T>(f: string -> seq<T>, g: string -> seq<T>) {
    && g("") == []
    && forall line: string, rest: string | '\n' !in line :: g(line + "\n" + rest) == f(line) + g(rest)
  }

  function GatherText<T>(f: string -> seq<T>): string -> seq<T> {
    (text: string) => Gather(f, Scan(text))
  }

  lemma ScanReadsByLine<T>(f: string -> seq<T>)
    ensures ReadsByLine(f, GatherText(f))
  {
    var g := GatherText(f);
    assert Scan("") == [];
    forall line: string, rest: string | '\n' !in line ensures g(line + "\n" + rest) == f(line) + g(rest) {
      GatherScanLine(f, line, rest);
    }
  }

  lemma RenderFirst(lines: seq<string>, rest: string)
    requires lines != []
    ensures Render(lines) + rest == lines[0] + "\n" + (Render(lines[1..]) + rest)
  {
  }

  lemma GatherFirst<T>(f: string -> seq<T>, lines: seq<string>)
    requires lines != []
    ensures Gather(f, lines) == f(lines[0]) + Gather(f, lines[1..])
  {
    var l := lines[0];
    assert lines == [l] + lines[1..] && [l][..0] == [];
    GatherConcat(f, [l], lines[1..]);
    assert Gather(f, [l]) == f(l);
  }

  /** Reading a written file gives its lines back. */
  lemma {:induction false} ReadRender<T>(f: string -> seq<T>, g: string -> seq<T>, lines: seq<string>, rest: string)
    requires SingleLine(lines) && ReadsByLine(f, g)
    ensures g(Render(lines) + rest) == Gather(f, lines) + g(rest)
  {
    if lines == [] {
      assert Render(lines) + rest == rest;
    } else {
      RenderFirst(lines, rest);
      GatherFirst(f, lines);
      ReadRender(f, g, lines[1..], rest);
      assert '\n' !in lines[0];
    }
  }

  /** One file, then a line break, then the other files. */
  lemma ReadOneFile<T>(f: string -> seq<T>, g: string -> seq<T>, lines: seq<string>, rest: string)
    requires SingleLine(lines) && f("") == [] && ReadsByLine(f, g)
    ensures g(Render(lines) + "\n" + rest) == Gather(f, lines) + g(rest)
  {
    var sep := "" + "\n" + rest;
    assert Render(lines) + "\n" + rest == Render(lines) + sep;
    ReadRender(f, g, lines, sep);
    assert g(sep) == f("") + g(rest);
  }

  lemma {:induction false} ReadFiles<T>(f: string -> seq<T>, g: string -> seq<T>, files: seq<seq<string>>)
    requires forall i | 0 <= i < |files| :: SingleLine(files[i])
    requires f("") == [] && ReadsByLine(f, g)
    ensures g(OpenLog(RenderAll(files))) == Gather(f, FlatLines(files))
  {
    if files != [] {
      var tail := files[1..];
      ReadFiles(f, g, tail);
      assert RenderAll(files)[1..] == RenderAll(tail);
      ReadOneFile(f, g, files[0], OpenLog(RenderAll(tail)));
      GatherConcat(f, files[0], FlatLines(tail));
    }
  }

  lemma {:induction false} GatherOnes<T>(f: string -> seq<T>, lines: seq<string>, out: seq<T>)
    requires |lines| == |out| && forall i | 0 <= i < |lines| :: f(lines[i]) == [out[i]]
    ensures Gather(f, lines) == out
  {
    if lines != [] {
      GatherOnes(f, lines[..|lines| - 1], out[..|out| - 1]);
    }
  }

  function RenderAll(files: seq<seq<string>>): seq<string> {
    seq(|files|, i requires 0 <= i < |files| => Render(files[i]))
  }

  function FlatLines(files: seq<seq<string>>): seq<string> {
    if files == [] then [] else files[0] + FlatLines(files[1..])
  }

  lemma ViewLines(env: Env, recs: seq<Rec>)
    requires Faithful(env) && GoodRecs(env, recs)
    ensures View(env, Lines(recs)) == Parsed(recs)
  {
    var lines, out := Lines(recs), Parsed(recs);
    forall i | 0 <= i < |recs| ensures Reader(env)(lines[i]) == [out[i]] {
      LineFacts(env, recs[i]);
    }
    GatherOnes(Reader(env), lines, out);
  }

  lemma LinesAreSingle(env: Env, recs: seq<Rec>)
    requires Faithful(env) && GoodRecs(env, recs)
    ensures SingleLine(Lines(recs))
  {
    forall i | 0 <= i < |recs| ensures '\n' !in Lines(recs)[i] {
      LineFacts(env, recs[i]);
    }
  }

  function Flat(files: seq<seq<Rec>>): seq<Rec> {
    if files == [] then [] else files[0] + Flat(files[1..])
  }

  ghost predicate GoodFiles(env: Env, files: seq<seq<Rec>>) {
    forall i | 0 <= i < |files| :: GoodRecs(env, files[i])
  }

  predicate NonEmptyEvents(files: seq<seq<Rec>>) {
    forall i, j | 0 <= i < |files| && 0 <= j < |files[i]| :: files[i][j].event != ""
  }

  /** The bytes of a file holding recs. */
  function Bytes(recs: seq<Rec>): string
    requires forall i | 0 <= i < |recs| :: recs[i].event != ""
  {
    Render(Lines(recs))
  }

  function AllLines(files: seq<seq<Rec>>): seq<seq<string>>
    requires NonEmptyEvents(files)
  {
    seq(|files|, i requires 0 <= i < |files| => Lines(files[i]))
  }

  /** The bytes of each file, in order. */
  function AllBytes(files: seq<seq<Rec>>): seq<string>
    requires NonEmptyEvents(files)
  {
    RenderAll(AllLines(files))
  }

  lemma {:induction false} FlatOfLines(files: seq<seq<Rec>>)
    requires NonEmptyEvents(files)
    ensures forall i | 0 <= i < |Flat(files)| :: Flat(files)[i].event != ""
    ensures FlatLines(AllLines(files)) == Lines(Flat(files))
  {
    if files != [] {
      var tail := files[1..];
      FlatOfLines(tail);
      assert AllLines(files)[1..] == AllLines(tail);
    }
  }

  lemma {:induction false} FlatIsGood(env: Env, files: seq<seq<Rec>>)
    requires GoodFiles(env, files)
    ensures GoodRecs(env, Flat(files)) && NonEmptyEvents(files)
  {
    if files != [] {
      FlatIsGood(env, files[1..]);
    }
  }

  lemma GatherOfFiles<T>(f: string -> seq<T>, files: seq<seq<string>>)
    requires f("") == [] && forall i | 0 <= i < |files| :: SingleLine(files[i])
    ensures Gather(f, Scan(OpenLog(RenderAll(files)))) == Gather(f, FlatLines(files))
  {
    ScanReadsByLine(f);
    ReadFiles(f, GatherText(f), files);
  }

  lemma BlankReadsNothing(env: Env)
    ensures Reader(env)("") == []
  {
    TrimSpaceKeeps("");
  }

  lemma FilesAreSingle(env: Env, files: seq<seq<Rec>>)
    requires Faithful(env) && GoodFiles(env, files)
    ensures NonEmptyEvents(files)
    ensures forall i | 0 <= i < |files| :: SingleLine(AllLines(files)[i])
  {
    forall i | 0 <= i < |files| ensures SingleLine(AllLines(files)[i]) {
      LinesAreSingle(env, files[i]);
    }
  }

  /** The verifier, reading the files of a log in order, sees their records. */
  lemma ViewOpenLog(env: Env, files: seq<seq<Rec>>)
    requires Faithful(env) && GoodFiles(env, files)
    ensures NonEmptyEvents(files)
    ensures View(env, Scan(OpenLog(AllBytes(files)))) == Parsed(Flat(files))
  {
    FlatIsGood(env, files);
    FilesAreSingle(env, files);
    BlankReadsNothing(env);
    GatherOfFiles(Reader(env), AllLines(files));
    FlatOfLines(files);
    ViewLines(env, Flat(files));
  }

  // ---- Lines that the scanner cannot take ----------------------------------------

  function LongLine(line: string): seq<string> { if TooLong(line) then [line] else [] }

  lemma {:induction false} GatherLong(lines: seq<string>)
    ensures Gather(LongLine, lines) != [] <==> exists i | 0 <= i < |lines| :: TooLong(lines[i])
  {
    if lines != [] {
      var n := |lines| - 1;
      GatherLong(lines[..n]);
      if i :| 0 <= i < |lines| && TooLong(lines[i]) {
        assert i < n ==> lines[..n][i] == lines[i];
      }
    }
  }

  /** Some record's line does not fit the scanner's buffer. */
  predicate Overlong(recs: seq<Rec>) {
    exists i | 0 <= i < |recs| :: recs[i].event != "" && TooLong(Line(recs[i]))
  }

  lemma OverlongLines(recs: seq<Rec>)
    requires forall i | 0 <= i < |recs| :: recs[i].event != ""
    ensures (exists i | 0 <= i < |Lines(recs)| :: TooLong(Lines(recs)[i])) <==> Overlong(recs)
  {
    if i :| 0 <= i < |recs| && TooLong(Line(recs[i])) {
      assert TooLong(Lines(recs)[i]);
    }
  }

  /** Reading the files of a log meets an over-long line exactly when a record has
      one. */
  lemma LongOpenLog(env: Env, files: seq<seq<Rec>>)
    requires Faithful(env) && GoodFiles(env, files)
    ensures NonEmptyEvents(files)
    ensures var lines := Scan(OpenLog(AllBytes(files)));
            (exists i | 0 <= i < |lines| :: TooLong(lines[i])) <==> Overlong(Flat(files))
  {
    FlatIsGood(env, files);
    FilesAreSingle(env, files);
    GatherOfFiles(LongLine, AllLines(files));
    FlatOfLines(files);
    GatherLong(Scan(OpenLog(AllBytes(files))));
    GatherLong(Lines(Flat(files)));
    OverlongLines(Flat(files));
  }

  // ---- The newest chain state of a file ----------------------------------------

  const TAIL_WINDOW: nat := 0x10_0000

  function TrimBreaks(s: string): string {
    if s != "" && s[|s| - 1] == '\n' then TrimBreaks(s[..|s| - 1]) else s
  }

  function LastLine(s: string): string {
    if s == "" || s[|s| - 1] == '\n' then "" else LastLine(s[..|s| - 1]) + [s[|s| - 1]]
  }

  function Window(bytes: string): string {
    bytes[if |bytes| > TAIL_WINDOW then |bytes| - TAIL_WINDOW else 0..]
  }

  /** The last line of the last TAIL_WINDOW bytes. */
  function Tail(bytes: string): string {
    LastLine(TrimBreaks(Window(bytes)))
  }

  /** lastChainState. */
  function LastChainState(env: Env, bytes: string): Option<ChainState> {
    if bytes == "" then None
    else
      match env.split(TrimSpace(Tail(bytes)))
      case Chained(_, st) => Some(st)
      case _ => None
  }

  lemma {:induction false} LastLineOf(a: string, b: string)
    requires '\n' !in b && (a == "" || a[|a| - 1] == '\n')
    ensures LastLine(a + b) == b
  {
    if b == "" {
      assert a + b == a;
    } else {
      var b' := b[..|b| - 1];
      assert (a + b)[..|a + b| - 1] == a + b';
      LastLineOf(a, b');
    }
  }

  lemma FieldFits(st: ChainState)
    requires Canonical(st) && |st.prev| <= 64 && |st.mac| <= 64
    ensures |Field(st)| < 256
  {
    assert Pow10(5) == 100000;
    assert Pow10(10) == 10000000000;
    assert Pow10(15) == 1000000000000000;
    assert Pow10(20) == 100000000000000000000;
    DecimalLength(st.seqNo, 20);
  }

  /** Events of up to 16 MiB less 256 bytes are always readable. */
  lemma ShortEventsFit(env: Env, recs: seq<Rec>)
    requires GoodRecs(env, recs) && forall i | 0 <= i < |recs| :: |recs[i].event| <= MAX_LINE - 256
    ensures !Overlong(recs)
  {
    forall i | 0 <= i < |recs| ensures !TooLong(Line(recs[i])) {
      FieldFits(recs[i].st);
    }
  }

  /** Trimming a text that ends in a chain field stops at the latest where the
      field begins. */
  lemma {:induction false} TrimLeftOnto(head: string, field: string) returns (t: string)
    requires field != "" && !IsSpace(field[0])
    ensures TrimLeft(head + field) == t + field
  {
    t := head;
    if head == "" {
      assert head + field == field;
    } else if IsSpace(head[0]) {
      assert (head + field)[1..] == head[1..] + field;
      t := TrimLeftOnto(head[1..], field);
    }
  }

  /** A text that ends in a chain field yields that state, whatever precedes it. */
  lemma SplitTrimmed(env: Env, head: string, st: ChainState)
    requires Faithful(env) && Canonical(st)
    ensures env.split(TrimSpace(head + Field(st))).Chained?
    ensures env.split(TrimSpace(head + Field(st))).st == st
  {
    FieldShape(st);
    var t := TrimLeftOnto(head, Field(st));
    SplitRecovers(env, t, st);
  }

  lemma TrimOneBreak(s: string)
    requires s != "" && s[|s| - 1] != '\n'
    ensures TrimBreaks(s + "\n") == s
  {
  }

  /** Where the window over pre + line + "\n" begins. */
  function Cut(pre: string, line: string): nat {
    if |pre| + |line| + 1 > TAIL_WINDOW then |pre| + |line| + 1 - TAIL_WINDOW else 0
  }

  lemma WindowOf(pre: string, line: string)
    ensures var from := Cut(pre, line);
            && from <= |pre| + |line|
            && Window(pre + line + "\n") ==
               (if from <= |pre| then pre[from..] + line else line[from - |pre|..]) + "\n"
  {
  }

  lemma TailOf(bytes: string, pre: string, line: string)
    requires Window(bytes) == pre + line + "\n"
    requires '\n' !in line && line != "" && (pre == "" || pre[|pre| - 1] == '\n')
    ensures Tail(bytes) == line
  {
    TrimOneBreak(pre + line);
    LastLineOf(pre, line);
  }

  /** The last line of a window over pre + line + "\n" is a suffix of line, and
      holds its last 256 bytes at least. */
  lemma LastLineInWindow(pre: string, line: string) returns (d: nat)
    requires '\n' !in line && line != "" && (pre == "" || pre[|pre| - 1] == '\n')
    ensures d <= |line| && (d == 0 || |line| - d >= 256)
    ensures Tail(pre + line + "\n") == line[d..]
  {
    var from, bytes := Cut(pre, line), pre + line + "\n";
    WindowOf(pre, line);
    if from <= |pre| {
      d := 0;
      TailOf(bytes, pre[from..], line);
    } else {
      d := from - |pre|;
      assert "" + line[d..] == line[d..];
      TailOf(bytes, "", line[d..]);
    }
  }

  lemma {:induction false} RenderEnds(lines: seq<string>)
    ensures lines != [] ==> Render(lines) != "" && Render(lines)[|Render(lines)| - 1] == '\n'
  {
    if lines != [] {
      RenderEnds(lines[1..]);
    }
  }

  /** The newest record of a file is found even when its line is longer than
      the window: the chain field sits at the very end. */
  lemma LastStateOfBytes(env: Env, recs: seq<Rec>)
    requires Faithful(env) && GoodRecs(env, recs) && recs != []
    ensures LastChainState(env, Bytes(recs)) == Some(recs[|recs| - 1].st)
  {
    var st := recs[|recs| - 1].st;
    var init, head := LastRecordLine(env, recs);
    var d := TailOfRender(init, head, Field(st));
    SplitTrimmed(env, head[d..], st);
    StateFromTail(env, Bytes(recs), TrimSpace(head[d..] + Field(st)), st);
  }

  lemma LinesSnoc(recs: seq<Rec>)
    requires recs != [] && forall i | 0 <= i < |recs| :: recs[i].event != ""
    ensures Lines(recs) == Lines(recs[..|recs| - 1]) + [Line(recs[|recs| - 1])]
  {
  }

  lemma LastRecordLine(env: Env, recs: seq<Rec>) returns (init: seq<string>, head: string)
    requires Faithful(env) && GoodRecs(env, recs) && recs != []
    ensures var field := Field(recs[|recs| - 1].st);
            && Lines(recs) == init + [head + field]
            && field != "" && |field| < 256 && '\n' !in head + field
  {
    var r := recs[|recs| - 1];
    init, head := Lines(recs[..|recs| - 1]), r.event[..|r.event| - 1];
    LineFacts(env, r);
    FieldFits(r.st);
    assert Field(r.st) != "" by { FieldShape(r.st); }
    LinesSnoc(recs);
    assert Line(r) == head + Field(r.st);
  }

  lemma TailOfRender(init: seq<string>, head: string, field: string) returns (d: nat)
    requires field != "" && |field| < 256 && '\n' !in head + field
    ensures d <= |head|
    ensures Render(init + [head + field]) != ""
    ensures Tail(Render(init + [head + field])) == head[d..] + field
  {
    RenderSnoc(init, head + field);
    RenderEnds(init);
    d := LastLineInWindow(Render(init), head + field);
    assert (head + field)[d..] == head[d..] + field;
  }

  lemma StateFromTail(env: Env, bytes: string, tail: string, st: ChainState)
    requires bytes != "" && TrimSpace(Tail(bytes)) == tail
    requires env.split(tail).Chained? && env.split(tail).st == st
    ensures LastChainState(env, bytes) == Some(st)
  {
  }
}
