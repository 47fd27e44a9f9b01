/** A recursive sender and a stack-machine receiver that compose to the identity
    on file trees. */
module ScpTransfer {
  import opened Text
  import opened ScpRecords

  // ---- The sender ------------------------------------------------------------------------

  datatype Node =
    | FileNode(name: string, mode: nat, mtime: int, data: string)
    | DirNode(name: string, mode: nat, mtime: int, children: seq<Node>)

  const NUL: char := 0 as char

  /** sendTimes. */
  function SendTimes(preserve: bool, mtime: int): string {
    if preserve then TimesText(mtime) + "\n" else ""
  }

  /** How records are written and read; see Real below. */
  datatype Wire = Wire(
    rec: (char, nat, nat, string) -> string,
    times: (bool, int) -> string,
    run: (Sink, string) -> Outcome)

  /** sendFile and sendDir. */
  function Send(w: Wire, n: Node, preserve: bool): string
    decreases n
  {
    match n
    case FileNode(name, mode, mtime, data) =>
      w.times(preserve, mtime) + (w.rec('C', mode, |data|, name) + "\n" + (data + [NUL]))
    case DirNode(name, mode, mtime, children) =>
      w.times(preserve, mtime) + (w.rec('D', mode, 0, name) + "\n" + (SendAll(w, children, preserve) + "E\n"))
  }

  function SendAll(w: Wire, ns: seq<Node>, preserve: bool): string
    decreases ns
  {
    if ns == [] then "" else Send(w, ns[0], preserve) + SendAll(w, ns[1..], preserve)
  }

  /** Trees whose names can be framed and are unchanged by trimming; siblings
      have different names. */
  predicate WellFormed(n: Node)
    decreases n
  {
    && GoodHeader(n)
    && match n
       case FileNode(_, _, _, _) => true
       case DirNode(_, _, _, children) =>
         && (forall i | 0 <= i < |children| :: WellFormed(children[i]))
         && DistinctNames(children)
  }

  predicate GoodHeader(n: Node) {
    && ValidName(n.name) && Trimmed(n.name) && |n.name| <= MAX_NAME
    && n.mode < 512 && -INT64 <= n.mtime < INT64
    && (n.FileNode? ==> |n.data| < INT64)
  }

  predicate DistinctNames(ns: seq<Node>) {
    forall i, j | 0 <= i < j < |ns| :: ns[i].name != ns[j].name
  }

  function Depth(n: Node): nat
    decreases n
  {
    match n
    case FileNode(_, _, _, _) => 0
    case DirNode(_, _, _, children) => 1 + MaxDepth(children)
  }

  function MaxDepth(ns: seq<Node>): nat
    decreases ns
  {
    if ns == [] then 0
    else if Depth(ns[0]) >= MaxDepth(ns[1..]) then Depth(ns[0]) else MaxDepth(ns[1..])
  }

  // ---- The receiver ----------------------------------------------------------------------

  type Path = seq<string>

  datatype Entry = FileEntry(mode: nat, data: string, times: Option<Times>) | DirEntry(mode: nat, times: Option<Times>)

  type FileSystem = map<Path, Entry>

  /** The variables of runSCPSink; acks counts the zero bytes written back. */
  datatype Sink = Sink(fs: FileSystem, dirs: seq<Path>, dirTimes: seq<Option<Times>>, pending: Option<Times>, acks: nat)

  datatype Outcome = Done(sink: Sink) | Failed

  datatype Turn = More(sink: Sink, rest: string) | Stop(outcome: Outcome)

  const MAX_DEPTH := 128

  // readSCPLE gives up once seventeen 4096-byte reads hold no line break.
  const MAX_LINE: nat := 69632
  const MAX_NAME: nat := 65536

  predicate IsDir(fs: FileSystem, p: Path) {
    p == [] || (p in fs && fs[p].DirEntry?)
  }

  predicate HasParent(fs: FileSystem, p: Path) {
    p != [] && IsDir(fs, p[..|p| - 1])
  }

  /** resolveSCPSinkPath for the outermost record, else the innermost directory. */
  function Dest(st: Sink, target: Path, name: string): Path {
    if st.dirs != [] then st.dirs[|st.dirs| - 1] + [name]
    else if IsDir(st.fs, target) then target + [name]
    else target
  }

  function SetTimes(fs: FileSystem, p: Path, t: Option<Times>): FileSystem {
    if t.Some? && p in fs then fs[p := fs[p].(times := t)] else fs
  }

  /** A "D" record: Mkdir with mode|0700; an existing directory will do. */
  function OpenDir(target: Path, st: Sink, r: Record, rest: string): Turn {
    var dst := Dest(st, target, r.name);
    if !IsDir(st.fs, dst) && (dst in st.fs || !HasParent(st.fs, dst)) then Stop(Failed)
    else
      var fs := if IsDir(st.fs, dst) then st.fs else st.fs[dst := DirEntry(DirMode(r.mode), None)];
      More(Sink(fs, st.dirs + [dst], st.dirTimes + [st.pending], None, st.acks + 1), rest)
  }

  function DirMode(mode: nat): nat { mode % 64 + 448 }

  /** A "C" record: create or truncate, copy size bytes, check the trailer, set
      the times. A peer may close right after the last byte. */
  function ReceiveFile(target: Path, st: Sink, r: Record, rest: string): Turn {
    var dst := Dest(st, target, r.name);
    if IsDir(st.fs, dst) || (dst !in st.fs && !HasParent(st.fs, dst)) then Stop(Failed)
    else if |rest| < r.size || (|rest| > r.size && rest[r.size] != NUL) then Stop(Failed)
    else
      var mode := if dst in st.fs then st.fs[dst].mode else r.mode;
      var kept := if dst in st.fs then st.fs[dst].times else None;
      var times := if st.pending.Some? then st.pending else kept;
      More(st.(fs := st.fs[dst := FileEntry(mode, rest[..r.size], times)], pending := None, acks := st.acks + 2),
           rest[if |rest| > r.size then r.size + 1 else r.size..])
  }

  function CloseDir(st: Sink, rest: string): Turn {
    if st.dirs == [] || st.dirTimes == [] then Stop(Done(st.(acks := st.acks + 1)))
    else
      var n, m := |st.dirs| - 1, |st.dirTimes| - 1;
      More(Sink(SetTimes(st.fs, st.dirs[n], st.dirTimes[m]), st.dirs[..n], st.dirTimes[..m], st.pending, st.acks + 1), rest)
  }

  /** One record, its header line already read and trimmed. */
  function HeaderTurn(target: Path, recursive: bool, st: Sink, header: string, rest: string): Turn {
    if header == "" || header[0] == NUL then More(st, rest)
    else if header[0] == 'T' then More(st.(pending := ParseTimes(header), acks := st.acks + 1), rest)
    else if header[0] == 'D' then
      if !recursive || |st.dirs| >= MAX_DEPTH then Stop(Failed)
      else match ParseRecord(header, 'D')
        case None => Stop(Failed)
        case Some(r) => OpenDir(target, st, r, rest)
    else if header[0] == 'C' then
      match ParseRecord(header, 'C')
      case None => Stop(Failed)
      case Some(r) => ReceiveFile(target, st, r, rest)
    else if header[0] == 'E' then CloseDir(st, rest)
    else Stop(Failed)
  }

  function TakeTurn(target: Path, recursive: bool, st: Sink, input: string): Turn {
    var i := IndexOf(input, '\n');
    if i == |input| then Stop(if i < MAX_LINE then Done(st) else Failed)    // end of stream
    else if i + 1 > MAX_LINE then Stop(Failed)
    else HeaderTurn(target, recursive, st, TrimSpace(input[..i]), input[i + 1..])
  }

  lemma TurnConsumes(target: Path, recursive: bool, st: Sink, input: string)
    ensures TakeTurn(target, recursive, st, input).More? ==>
              |TakeTurn(target, recursive, st, input).rest| < |input|
  {
  }

  function Run(target: Path, recursive: bool, st: Sink, input: string): Outcome
    decreases |input|
  {
    TurnConsumes(target, recursive, st, input);
    match TakeTurn(target, recursive, st, input)
    case Stop(o) => o
    case More(st', rest) => Run(target, recursive, st', rest)
  }

  /** runSCPSink on a whole input stream. */
  method RunSink(fs: FileSystem, target: Path, recursive: bool, input: string) returns (o: Outcome)
    ensures o == Run(target, recursive, Sink(fs, [], [], None, 1), input)
  {
    var st, rest := Sink(fs, [], [], None, 1), input;
    while true
      invariant Run(target, recursive, st, rest) == Run(target, recursive, Sink(fs, [], [], None, 1), input)
      decreases |rest|
    {
      TurnConsumes(target, recursive, st, rest);
      match TakeTurn(target, recursive, st, rest)
      case Stop(out) =>
        return out;
      case More(st', rest') =>
        st, rest := st', rest';
    }
  }

  // ---- One record at a time -----------------------------------------------------------------

  predicate IsLine(line: string) {
    '\n' !in line && |line| < MAX_LINE && TrimSpace(line) == line
  }

  function Proceed(run: (Sink, string) -> Outcome, turn: Turn): Outcome {
    match turn
    case Stop(o) => o
    case More(st, rest) => run(st, rest)
  }

  /** The records of scp as the sender prints them and the receiver runs them. */
  function Real(target: Path, recursive: bool): Wire {
    Wire(RecordText, SendTimes, (st: Sink, input: string) => Run(target, recursive, st, input))
  }

  lemma RunLine(target: Path, recursive: bool, st: Sink, line: string, rest: string)
    requires IsLine(line)
    ensures Run(target, recursive, st, line + "\n" + rest) ==
            Proceed(Real(target, recursive).run, HeaderTurn(target, recursive, st, line, rest))
  {
    IndexOfConcat(line, '\n', rest);
    assert TakeTurn(target, recursive, st, line + "\n" + rest) == HeaderTurn(target, recursive, st, line, rest);
  }

  /** The times a receiver sees. */
  function SentTimes(preserve: bool, mtime: int): Option<Times> {
    if preserve && mtime >= 0 then Some(Times(mtime, mtime)) else None
  }

  function TimesAcks(preserve: bool): nat { if preserve then 1 else 0 }

  lemma TimesTurn(target: Path, recursive: bool, st: Sink, mtime: int, rest: string)
    requires -INT64 <= mtime < INT64
    ensures IsLine(TimesText(mtime))
    ensures HeaderTurn(target, recursive, st, TimesText(mtime), rest) ==
            More(st.(pending := SentTimes(true, mtime), acks := st.acks + 1), rest)
  {
    TimesIsLine(mtime);
    TimesRoundTrip(mtime);
  }

  /** Nothing exists at or below p. */
  predicate Fresh(fs: FileSystem, p: Path) {
    forall q | q in fs :: !(p <= q)
  }

  /** A place where a new file or directory can be made. */
  predicate Vacant(fs: FileSystem, dst: Path) {
    dst != [] && Fresh(fs, dst) && HasParent(fs, dst)
  }

  lemma ReceiveFresh(target: Path, st: Sink, r: Record, dst: Path, data: string, rest: string)
    requires dst == Dest(st, target, r.name) && Vacant(st.fs, dst) && r.size == |data|
    ensures ReceiveFile(target, st, r, data + [NUL] + rest) ==
            More(st.(fs := st.fs[dst := FileEntry(r.mode, data, st.pending)], pending := None, acks := st.acks + 2), rest)
  {
    var after := data + [NUL] + rest;
    assert after[..|data|] == data && after[|data|] == NUL && after[|data| + 1..] == rest;
    assert dst <= dst;
  }

  lemma OpenFresh(target: Path, st: Sink, r: Record, dst: Path, rest: string)
    requires dst == Dest(st, target, r.name) && Vacant(st.fs, dst)
    ensures OpenDir(target, st, r, rest) ==
            More(Sink(st.fs[dst := DirEntry(DirMode(r.mode), None)], st.dirs + [dst],
                      st.dirTimes + [st.pending], None, st.acks + 1), rest)
  {
    assert dst <= dst;
  }

  lemma ParsedTurn(target: Path, recursive: bool, st: Sink, header: string, r: Record, rest: string)
    requires header != ""
    ensures header[0] == 'C' && ParseRecord(header, 'C') == Some(r) ==>
              HeaderTurn(target, recursive, st, header, rest) == ReceiveFile(target, st, r, rest)
    ensures header[0] == 'D' && recursive && ParseRecord(header, 'D') == Some(r) ==>
              HeaderTurn(target, recursive, st, header, rest) ==
              if |st.dirs| >= MAX_DEPTH then Stop(Failed) else OpenDir(target, st, r, rest)
  {
  }

  /** The line of a file record and what it does. */
  lemma FileTurn(rec: (char, nat, nat, string) -> string, target: Path, recursive: bool, st: Sink, n: Node, rest: string)
      returns (line: string)
    requires rec == RecordText
    requires n.FileNode? && GoodHeader(n) && Vacant(st.fs, Dest(st, target, n.name))
    ensures line == rec('C', n.mode, |n.data|, n.name) && IsLine(line)
    ensures HeaderTurn(target, recursive, st, line, n.data + [NUL] + rest) == More(FileAfter(st, target, n), rest)
  {
    line := RecordText('C', n.mode, |n.data|, n.name);
    var r := Record(n.mode, |n.data|, n.name);
    RecordIsLine('C', n.mode, |n.data|, n.name);
    RecordRoundTrip('C', n.mode, |n.data|, n.name);
    ParsedTurn(target, recursive, st, line, r, n.data + [NUL] + rest);
    ReceiveFresh(target, st, r, Dest(st, target, n.name), n.data, rest);
  }

  /** The line of a directory record and what it does. */
  lemma DirTurn(rec: (char, nat, nat, string) -> string, target: Path, st: Sink, n: Node, rest: string)
      returns (line: string)
    requires rec == RecordText
    requires n.DirNode? && GoodHeader(n) && Vacant(st.fs, Dest(st, target, n.name))
    ensures line == rec('D', n.mode, 0, n.name) && IsLine(line)
    ensures HeaderTurn(target, true, st, line, rest) ==
            if |st.dirs| >= MAX_DEPTH then Stop(Failed) else More(DirAfter(st, target, n), rest)
  {
    line := RecordText('D', n.mode, 0, n.name);
    var r := Record(n.mode, 0, n.name);
    RecordIsLine('D', n.mode, 0, n.name);
    RecordRoundTrip('D', n.mode, 0, n.name);
    ParsedTurn(target, true, st, line, r, rest);
    OpenFresh(target, st, r, Dest(st, target, n.name), rest);
  }

  lemma CloseTurn(target: Path, st: Sink, dirs: seq<Path>, dst: Path, times: seq<Option<Times>>, t: Option<Times>, rest: string)
    requires st.dirs == dirs + [dst] && st.dirTimes == times + [t]
    ensures IsLine("E")
    ensures HeaderTurn(target, true, st, "E", rest) ==
            More(Sink(SetTimes(st.fs, dst, t), dirs, times, st.pending, st.acks + 1), rest)
  {
  }

  // ---- What a tree looks like in the file system ---------------------------------------------

  function Place(fs: FileSystem, dst: Path, n: Node, preserve: bool): FileSystem
    decreases n
  {
    match n
    case FileNode(_, mode, mtime, data) => fs[dst := FileEntry(mode, data, SentTimes(preserve, mtime))]
    case DirNode(_, mode, mtime, children) =>
      SetTimes(PlaceAll(fs[dst := DirEntry(DirMode(mode), None)], dst, children, preserve),
               dst, SentTimes(preserve, mtime))
  }

  function PlaceAll(fs: FileSystem, dir: Path, ns: seq<Node>, preserve: bool): FileSystem
    decreases ns
  {
    if ns == [] then fs
    else PlaceAll(Place(fs, dir + [ns[0].name], ns[0], preserve), dir, ns[1..], preserve)
  }

  /** Placing a node touches only paths at or below its own. */
  lemma {:induction false} PlaceFrame(fs: FileSystem, dst: Path, n: Node, preserve: bool, q: Path)
    requires !(dst <= q)
    ensures q in Place(fs, dst, n, preserve) <==> q in fs
    ensures q in fs ==> Place(fs, dst, n, preserve)[q] == fs[q]
    decreases n
  {
    if n.DirNode? {
      PlaceAllFrame(fs[dst := DirEntry(DirMode(n.mode), None)], dst, n.children, preserve, q);
    }
  }

  lemma {:induction false} PlaceAllFrame(fs: FileSystem, dir: Path, ns: seq<Node>, preserve: bool, q: Path)
    requires forall i | 0 <= i < |ns| :: !(dir + [ns[i].name] <= q)
    ensures q in PlaceAll(fs, dir, ns, preserve) <==> q in fs
    ensures q in fs ==> PlaceAll(fs, dir, ns, preserve)[q] == fs[q]
    decreases ns
  {
    if ns != [] {
      PlaceFrame(fs, dir + [ns[0].name], ns[0], preserve, q);
      PlaceAllFrame(Place(fs, dir + [ns[0].name], ns[0], preserve), dir, ns[1..], preserve, q);
    }
  }

  /** The entry that the tree n should leave at the path rel below it. */
  function At(n: Node, preserve: bool, rel: Path): Option<Entry>
    decreases n
  {
    match n
    case FileNode(_, mode, mtime, data) =>
      if rel == [] then Some(FileEntry(mode, data, SentTimes(preserve, mtime))) else None
    case DirNode(_, mode, mtime, children) =>
      if rel == [] then Some(DirEntry(DirMode(mode), SentTimes(preserve, mtime)))
      else AtAny(children, preserve, rel)
  }

  function AtAny(ns: seq<Node>, preserve: bool, rel: Path): Option<Entry>
    requires rel != []
    decreases ns
  {
    if ns == [] then None
    else if ns[0].name == rel[0] then At(ns[0], preserve, rel[1..])
    else AtAny(ns[1..], preserve, rel)
  }

  function Get(fs: FileSystem, p: Path): Option<Entry> {
    if p in fs then Some(fs[p]) else None
  }

  lemma ChildPaths(dir: Path, a: string, b: string, rel: Path)
    requires a != b
    ensures !(dir + [a] <= dir + [b] + rel) && !(dir + [a] <= dir)
  {
    assert (dir + [b] + rel)[|dir|] == b && (dir + [a])[|dir|] == a;
  }

  lemma FreshAfter(fs: FileSystem, dir: Path, n: Node, preserve: bool, other: string)
    requires Fresh(fs, dir + [other]) && n.name != other
    ensures Fresh(Place(fs, dir + [n.name], n, preserve), dir + [other])
  {
    var p := dir + [other];
    forall q | q in Place(fs, dir + [n.name], n, preserve) ensures !(p <= q) {
      if p <= q {
        var rel := q[|p|..];
        assert q == dir + [other] + rel;
        ChildPaths(dir, n.name, other, rel);
        PlaceFrame(fs, dir + [n.name], n, preserve, q);
      }
    }
  }

  // ---- A placed tree reads back as the tree ---------------------------------------------------

  predicate Named(ns: seq<Node>, name: string) {
    exists i | 0 <= i < |ns| :: ns[i].name == name
  }

  /** Room for new children of dir. */
  predicate Room(fs: FileSystem, dir: Path, ns: seq<Node>) {
    && DistinctNames(ns)
    && forall i | 0 <= i < |ns| :: WellFormed(ns[i]) && Fresh(fs, dir + [ns[i].name])
  }

  lemma RoomAfter(fs: FileSystem, dir: Path, ns: seq<Node>, preserve: bool)
    requires Room(fs, dir, ns) && ns != []
    ensures Room(Place(fs, dir + [ns[0].name], ns[0], preserve), dir, ns[1..])
  {
    forall i | 0 <= i < |ns[1..]|
      ensures Fresh(Place(fs, dir + [ns[0].name], ns[0], preserve), dir + [ns[1..][i].name])
    {
      FreshAfter(fs, dir, ns[0], preserve, ns[1 + i].name);
    }
  }

  lemma RoomInNewDir(fs: FileSystem, dst: Path, e: Entry, n: Node)
    requires n.DirNode? && WellFormed(n) && Fresh(fs, dst)
    ensures Room(fs[dst := e], dst, n.children)
  {
  }

  lemma {:induction false} PlaceAt(fs: FileSystem, dst: Path, n: Node, preserve: bool, rel: Path)
    requires WellFormed(n) && Fresh(fs, dst)
    ensures Get(Place(fs, dst, n, preserve), dst + rel) == At(n, preserve, rel)
    decreases n
  {
    if rel == [] {
      assert dst + rel == dst;
    } else {
      assert dst <= dst + rel && dst + rel != dst;
    }
    if n.DirNode? {
      var fs1 := fs[dst := DirEntry(DirMode(n.mode), None)];
      RoomInNewDir(fs, dst, DirEntry(DirMode(n.mode), None), n);
      if rel == [] {
        PlaceAllFrame(fs1, dst, n.children, preserve, dst);
      } else {
        PlaceAllAt(fs1, dst, n.children, preserve, rel);
        if !Named(n.children, rel[0]) {
          AtAnyNamed(n.children, preserve, rel);
        }
      }
    }
  }

  lemma {:induction false} AtAnyNamed(ns: seq<Node>, preserve: bool, rel: Path)
    requires rel != [] && !Named(ns, rel[0])
    ensures AtAny(ns, preserve, rel) == None
  {
    if ns != [] {
      assert forall i | 0 <= i < |ns[1..]| :: ns[1..][i] == ns[1 + i];
      AtAnyNamed(ns[1..], preserve, rel);
    }
  }

  lemma {:induction false} PlaceAllAt(fs: FileSystem, dir: Path, ns: seq<Node>, preserve: bool, rel: Path)
    requires Room(fs, dir, ns) && rel != []
    ensures Get(PlaceAll(fs, dir, ns, preserve), dir + rel) ==
            if Named(ns, rel[0]) then AtAny(ns, preserve, rel) else Get(fs, dir + rel)
    decreases ns
  {
    if ns != [] {
      var n, name := ns[0], rel[0];
      var fs1 := Place(fs, dir + [n.name], n, preserve);
      RoomAfter(fs, dir, ns, preserve);
      assert dir + rel == dir + [name] + rel[1..];
      assert Named(ns, name) <==> n.name == name || Named(ns[1..], name);
      if n.name == name {
        PlaceAt(fs, dir + [name], n, preserve, rel[1..]);
        forall i | 0 <= i < |ns[1..]| ensures !(dir + [ns[1..][i].name] <= dir + rel) {
          ChildPaths(dir, ns[1 + i].name, name, rel[1..]);
        }
        PlaceAllFrame(fs1, dir, ns[1..], preserve, dir + rel);
      } else {
        ChildPaths(dir, n.name, name, rel[1..]);
        PlaceFrame(fs, dir + [n.name], n, preserve, dir + rel);
        PlaceAllAt(fs1, dir, ns[1..], preserve, rel);
      }
    }
  }

  // ---- What each record does -------------------------------------------------------------------

  function TimesAfter(st: Sink, preserve: bool, mtime: int): Sink {
    st.(pending := SentTimes(preserve, mtime), acks := st.acks + TimesAcks(preserve))
  }

  function FileText(w: Wire, n: Node, rest: string): string
    requires n.FileNode?
  {
    w.rec('C', n.mode, |n.data|, n.name) + "\n" + (n.data + [NUL] + rest)
  }

  function FileAfter(st: Sink, target: Path, n: Node): Sink
    requires n.FileNode?
  {
    st.(fs := st.fs[Dest(st, target, n.name) := FileEntry(n.mode, n.data, st.pending)],
        pending := None, acks := st.acks + 2)
  }

  function DirText(w: Wire, n: Node, rest: string): string {
    w.rec('D', n.mode, 0, n.name) + "\n" + rest
  }

  function DirAfter(st: Sink, target: Path, n: Node): Sink {
    var dst := Dest(st, target, n.name);
    Sink(st.fs[dst := DirEntry(DirMode(n.mode), None)], st.dirs + [dst], st.dirTimes + [st.pending], None, st.acks + 1)
  }

  function EndText(rest: string): string { "E" + "\n" + rest }

  function EndAfter(st: Sink, dirs: seq<Path>, dst: Path, times: seq<Option<Times>>, t: Option<Times>): Sink {
    Sink(SetTimes(st.fs, dst, t), dirs, times, st.pending, st.acks + 1)
  }

  ghost predicate ReadsTimes(w: Wire) {
    forall st: Sink, preserve: bool, mtime: int, rest: string
      {:trigger w.run(TimesAfter(st, preserve, mtime), rest)} |
      -INT64 <= mtime < INT64 && st.pending == None ::
      w.run(st, w.times(preserve, mtime) + rest) == w.run(TimesAfter(st, preserve, mtime), rest)
  }

  ghost predicate ReadsFiles(w: Wire, target: Path) {
    forall st: Sink, n: Node, rest: string {:trigger FileText(w, n, rest), FileAfter(st, target, n)} |
      n.FileNode? && GoodHeader(n) && Vacant(st.fs, Dest(st, target, n.name)) ::
      w.run(st, FileText(w, n, rest)) == w.run(FileAfter(st, target, n), rest)
  }

  ghost predicate ReadsDirs(w: Wire, target: Path) {
    forall st: Sink, n: Node, rest: string {:trigger DirText(w, n, rest), DirAfter(st, target, n)} |
      n.DirNode? && GoodHeader(n) && Vacant(st.fs, Dest(st, target, n.name)) ::
      w.run(st, DirText(w, n, rest)) ==
      if |st.dirs| >= MAX_DEPTH then Failed else w.run(DirAfter(st, target, n), rest)
  }

  ghost predicate ReadsEnds(w: Wire) {
    forall st: Sink, dirs: seq<Path>, dst: Path, times: seq<Option<Times>>, t: Option<Times>, rest: string
      {:trigger EndText(rest), EndAfter(st, dirs, dst, times, t)} |
      st.dirs == dirs + [dst] && st.dirTimes == times + [t] ::
      w.run(st, EndText(rest)) == w.run(EndAfter(st, dirs, dst, times, t), rest)
  }

  /** The receiver w.run understands the records that w writes. */
  ghost predicate Reads(w: Wire, target: Path) {
    ReadsTimes(w) && ReadsFiles(w, target) && ReadsDirs(w, target) && ReadsEnds(w)
  }

  /** w runs lines as the receiver does, on records as the sender writes them. */
  ghost predicate RunsLines(w: Wire, target: Path, recursive: bool) {
    && w.rec == RecordText && w.times == SendTimes
    && forall st: Sink, line: string, rest: string {:trigger HeaderTurn(target, recursive, st, line, rest)} |
         IsLine(line) ::
         w.run(st, line + "\n" + rest) == Proceed(w.run, HeaderTurn(target, recursive, st, line, rest))
  }

  lemma RealRunsLines(target: Path, recursive: bool)
    ensures RunsLines(Real(target, recursive), target, recursive)
  {
    var w := Real(target, recursive);
    forall st: Sink, line: string, rest: string | IsLine(line)
      ensures w.run(st, line + "\n" + rest) == Proceed(w.run, HeaderTurn(target, recursive, st, line, rest))
    {
      RunLine(target, recursive, st, line, rest);
    }
  }

  lemma TimesRun(w: Wire, target: Path, recursive: bool, st: Sink, mtime: int, rest: string)
    requires RunsLines(w, target, recursive) && -INT64 <= mtime < INT64
    ensures w.run(st, TimesText(mtime) + "\n" + rest) == w.run(TimesAfter(st, true, mtime), rest)
  {
    TimesTurn(target, recursive, st, mtime, rest);
  }

  lemma ReadsTheTimes(w: Wire, target: Path, recursive: bool)
    requires RunsLines(w, target, recursive)
    ensures ReadsTimes(w)
  {
    forall st: Sink, preserve: bool, mtime: int, rest: string | -INT64 <= mtime < INT64 && st.pending == None
      ensures w.run(st, w.times(preserve, mtime) + rest) == w.run(TimesAfter(st, preserve, mtime), rest)
    {
      if preserve {
        TimesRun(w, target, recursive, st, mtime, rest);
      } else {
        assert w.times(preserve, mtime) + rest == rest;
      }
    }
  }

  lemma LineRuns(w: Wire, target: Path, recursive: bool, st: Sink, line: string, rest: string, turn: Turn)
    requires RunsLines(w, target, recursive) && IsLine(line)
    requires HeaderTurn(target, recursive, st, line, rest) == turn
    ensures w.run(st, line + "\n" + rest) == Proceed(w.run, turn)
  {
  }

  lemma FileRun(w: Wire, target: Path, recursive: bool, st: Sink, n: Node, rest: string)
    requires RunsLines(w, target, recursive)
    requires n.FileNode? && GoodHeader(n) && Vacant(st.fs, Dest(st, target, n.name))
    ensures w.run(st, FileText(w, n, rest)) == w.run(FileAfter(st, target, n), rest)
  {
    var line := FileTurn(w.rec, target, recursive, st, n, rest);
    LineRuns(w, target, recursive, st, line, n.data + [NUL] + rest, More(FileAfter(st, target, n), rest));
  }

  lemma ReadsTheFiles(w: Wire, target: Path, recursive: bool)
    requires RunsLines(w, target, recursive)
    ensures ReadsFiles(w, target)
  {
    forall st: Sink, n: Node, rest: string |
      n.FileNode? && GoodHeader(n) && Vacant(st.fs, Dest(st, target, n.name))
      ensures w.run(st, FileText(w, n, rest)) == w.run(FileAfter(st, target, n), rest)
    {
      FileRun(w, target, recursive, st, n, rest);
    }
  }

  lemma DirRun(w: Wire, target: Path, st: Sink, n: Node, rest: string)
    requires RunsLines(w, target, true)
    requires n.DirNode? && GoodHeader(n) && Vacant(st.fs, Dest(st, target, n.name))
    ensures w.run(st, DirText(w, n, rest)) ==
            if |st.dirs| >= MAX_DEPTH then Failed else w.run(DirAfter(st, target, n), rest)
  {
    var line := DirTurn(w.rec, target, st, n, rest);
    LineRuns(w, target, true, st, line, rest,
             if |st.dirs| >= MAX_DEPTH then Stop(Failed) else More(DirAfter(st, target, n), rest));
  }

  lemma ReadsTheDirs(w: Wire, target: Path)
    requires RunsLines(w, target, true)
    ensures ReadsDirs(w, target)
  {
    forall st: Sink, n: Node, rest: string |
      n.DirNode? && GoodHeader(n) && Vacant(st.fs, Dest(st, target, n.name))
      ensures w.run(st, DirText(w, n, rest)) ==
              if |st.dirs| >= MAX_DEPTH then Failed else w.run(DirAfter(st, target, n), rest)
    {
      DirRun(w, target, st, n, rest);
    }
  }

  lemma ReadsTheEnds(w: Wire, target: Path)
    requires RunsLines(w, target, true)
    ensures ReadsEnds(w)
  {
    forall st: Sink, dirs: seq<Path>, dst: Path, times: seq<Option<Times>>, t: Option<Times>, rest: string |
      st.dirs == dirs + [dst] && st.dirTimes == times + [t]
      ensures w.run(st, EndText(rest)) == w.run(EndAfter(st, dirs, dst, times, t), rest)
    {
      CloseTurn(target, st, dirs, dst, times, t, rest);
    }
  }

  /** The real receiver understands what the real sender writes. */
  lemma RealReads(target: Path)
    ensures Reads(Real(target, true), target)
  {
    var w := Real(target, true);
    RealRunsLines(target, true);
    ReadsTheTimes(w, target, true);
    ReadsTheFiles(w, target, true);
    ReadsTheDirs(w, target);
    ReadsTheEnds(w, target);
  }

  // ---- The stream of a tree ------------------------------------------------------------------

  /** How often the sender waits for an ack, and the receiver writes one. */
  function Acks(n: Node, preserve: bool): nat
    decreases n
  {
    TimesAcks(preserve) + 2 + (if n.DirNode? then AcksAll(n.children, preserve) else 0)
  }

  function AcksAll(ns: seq<Node>, preserve: bool): nat
    decreases ns
  {
    if ns == [] then 0 else Acks(ns[0], preserve) + AcksAll(ns[1..], preserve)
  }

  predicate Settled(st: Sink) { st.pending == None && |st.dirs| == |st.dirTimes| }

  lemma Regroup(a: string, b: string, c: string, d: string)
    ensures (a + (b + c)) + d == a + (b + (c + d))
  {
  }

  lemma FileStream(w: Wire, n: Node, preserve: bool, rest: string)
    requires n.FileNode?
    ensures Send(w, n, preserve) + rest == w.times(preserve, n.mtime) + FileText(w, n, rest)
  {
  }

  lemma DirStream(w: Wire, n: Node, preserve: bool, rest: string)
    requires n.DirNode?
    ensures Send(w, n, preserve) + rest ==
            w.times(preserve, n.mtime) + DirText(w, n, SendAll(w, n.children, preserve) + EndText(rest))
  {
  }

  lemma AllStream(w: Wire, ns: seq<Node>, preserve: bool, rest: string)
    requires ns != []
    ensures SendAll(w, ns, preserve) + rest == Send(w, ns[0], preserve) + (SendAll(w, ns[1..], preserve) + rest)
  {
  }

  lemma TimesRuns(w: Wire, st: Sink, preserve: bool, mtime: int, text: string)
    requires ReadsTimes(w) && Settled(st) && -INT64 <= mtime < INT64
    ensures w.run(st, w.times(preserve, mtime) + text) == w.run(TimesAfter(st, preserve, mtime), text)
  {
  }

  lemma FileRuns(w: Wire, target: Path, st: Sink, dst: Path, n: Node, preserve: bool, rest: string, st1: Sink)
    requires ReadsFiles(w, target) && Settled(st) && st1 == TimesAfter(st, preserve, n.mtime)
    requires n.FileNode? && GoodHeader(n) && dst == Dest(st, target, n.name) && Vacant(st.fs, dst)
    ensures w.run(st1, FileText(w, n, rest)) == w.run(NodeDone(st, dst, n, preserve), rest)
  {
    assert Dest(st1, target, n.name) == dst;
    assert w.run(st1, FileText(w, n, rest)) == w.run(FileAfter(st1, target, n), rest);
    FilePlaced(target, st, dst, n, preserve);
  }

  lemma RunFileNode(w: Wire, target: Path, st: Sink, dst: Path, n: Node, preserve: bool, rest: string)
    requires Reads(w, target) && Settled(st)
    requires n.FileNode? && GoodHeader(n) && dst == Dest(st, target, n.name) && Vacant(st.fs, dst)
    ensures NodeRuns(w, st, dst, n, preserve, rest)
  {
    var st1, st2, text := TimesAfter(st, preserve, n.mtime), NodeDone(st, dst, n, preserve), FileText(w, n, rest);
    FileStream(w, n, preserve, rest);
    TimesRuns(w, st, preserve, n.mtime, text);
    FileRuns(w, target, st, dst, n, preserve, rest, st1);
    JoinRuns(w, st, Send(w, n, preserve) + rest, st1, text, st2, rest, st2, rest);
  }

  lemma FilePlaced(target: Path, st: Sink, dst: Path, n: Node, preserve: bool)
    requires n.FileNode? && Settled(st) && dst == Dest(st, target, n.name)
    ensures FileAfter(TimesAfter(st, preserve, n.mtime), target, n) ==
            NodeDone(st, dst, n, preserve)
  {
  }

  /** The state after the "D" record of n. */
  function Entered(st: Sink, dst: Path, n: Node, preserve: bool): Sink {
    Sink(st.fs[dst := DirEntry(DirMode(n.mode), None)], st.dirs + [dst],
         st.dirTimes + [SentTimes(preserve, n.mtime)], None, st.acks + TimesAcks(preserve) + 1)
  }

  lemma RunEnter(w: Wire, target: Path, st: Sink, dst: Path, n: Node, preserve: bool, rest: string)
    requires ReadsTimes(w) && ReadsDirs(w, target) && Settled(st)
    requires n.DirNode? && GoodHeader(n) && dst == Dest(st, target, n.name) && Vacant(st.fs, dst)
    ensures w.run(st, Send(w, n, preserve) + rest) ==
            if |st.dirs| >= MAX_DEPTH then Failed
            else w.run(Entered(st, dst, n, preserve), SendAll(w, n.children, preserve) + EndText(rest))
  {
    DirStream(w, n, preserve, rest);
    var st1, after := TimesAfter(st, preserve, n.mtime), SendAll(w, n.children, preserve) + EndText(rest);
    TimesRuns(w, st, preserve, n.mtime, DirText(w, n, after));
    EnteredAfter(target, st, dst, n, preserve);
    assert w.run(st1, DirText(w, n, after)) ==
           if |st.dirs| >= MAX_DEPTH then Failed else w.run(DirAfter(st1, target, n), after);
  }

  lemma EnteredAfter(target: Path, st: Sink, dst: Path, n: Node, preserve: bool)
    requires dst == Dest(st, target, n.name)
    ensures var st1 := TimesAfter(st, preserve, n.mtime);
            && Dest(st1, target, n.name) == dst && st1.fs == st.fs && st1.dirs == st.dirs
            && DirAfter(st1, target, n) == Entered(st, dst, n, preserve)
  {
  }

  lemma RunLeave(w: Wire, target: Path, st: Sink, dst: Path, n: Node, preserve: bool,
                 fs: FileSystem, acks: nat, rest: string)
    requires Reads(w, target) && Settled(st)
    ensures w.run(Entered(st, dst, n, preserve).(fs := fs, acks := acks), EndText(rest)) ==
            w.run(st.(fs := SetTimes(fs, dst, SentTimes(preserve, n.mtime)), acks := acks + 1), rest)
  {
    var st1, t := Entered(st, dst, n, preserve).(fs := fs, acks := acks), SentTimes(preserve, n.mtime);
    assert EndAfter(st1, st.dirs, dst, st.dirTimes, t) == st.(fs := SetTimes(fs, dst, t), acks := acks + 1);
  }

  predicate Inside(st: Sink, dir: Path) {
    st.dirs != [] && st.dirs[|st.dirs| - 1] == dir && IsDir(st.fs, dir)
  }

  lemma EnteredInside(st: Sink, dst: Path, n: Node, preserve: bool)
    requires Settled(st) && n.DirNode? && WellFormed(n) && Fresh(st.fs, dst)
    ensures var st1 := Entered(st, dst, n, preserve);
            Settled(st1) && Inside(st1, dst) && Room(st1.fs, dst, n.children) && |st1.dirs| == |st.dirs| + 1
  {
  }

  /** The receiver after a node, and after all children of a directory. */
  function NodeDone(st: Sink, dst: Path, n: Node, preserve: bool): Sink {
    st.(fs := Place(st.fs, dst, n, preserve), acks := st.acks + Acks(n, preserve))
  }

  function AllDone(st: Sink, dir: Path, ns: seq<Node>, preserve: bool): Sink {
    st.(fs := PlaceAll(st.fs, dir, ns, preserve), acks := st.acks + AcksAll(ns, preserve))
  }

  /** The records of a node take the receiver there, whatever follows. */
  predicate NodeRuns(w: Wire, st: Sink, dst: Path, n: Node, preserve: bool, rest: string) {
    w.run(st, Send(w, n, preserve) + rest) == w.run(NodeDone(st, dst, n, preserve), rest)
  }

  predicate AllRun(w: Wire, st: Sink, dir: Path, ns: seq<Node>, preserve: bool, rest: string) {
    w.run(st, SendAll(w, ns, preserve) + rest) == w.run(AllDone(st, dir, ns, preserve), rest)
  }

  lemma JoinRuns(w: Wire, st: Sink, text: string, st1: Sink, text1: string, st2: Sink, text2: string,
                 st3: Sink, text3: string)
    requires w.run(st, text) == w.run(st1, text1)
    requires w.run(st1, text1) == w.run(st2, text2)
    requires w.run(st2, text2) == w.run(st3, text3)
    ensures w.run(st, text) == w.run(st3, text3)
  {
  }

  lemma LeaveRuns(w: Wire, target: Path, st: Sink, dst: Path, n: Node, preserve: bool, rest: string,
                  st2: Sink, st3: Sink)
    requires Reads(w, target) && Settled(st) && n.DirNode?
    requires st2 == AllDone(Entered(st, dst, n, preserve), dst, n.children, preserve)
    requires st3 == NodeDone(st, dst, n, preserve)
    ensures w.run(st2, EndText(rest)) == w.run(st3, rest)
  {
    RunLeave(w, target, st, dst, n, preserve, st2.fs, st2.acks, rest);
    DirPlaced(st, dst, n, preserve);
  }

  lemma DirPlaced(st: Sink, dst: Path, n: Node, preserve: bool)
    requires n.DirNode?
    ensures var st2 := AllDone(Entered(st, dst, n, preserve), dst, n.children, preserve);
            st.(fs := SetTimes(st2.fs, dst, SentTimes(preserve, n.mtime)), acks := st2.acks + 1) ==
            NodeDone(st, dst, n, preserve)
  {
  }

  /** Entering a directory, running its children and leaving it. */
  lemma RunDirNode(w: Wire, target: Path, st: Sink, dst: Path, n: Node, preserve: bool, rest: string)
    requires Reads(w, target) && Settled(st) && |st.dirs| < MAX_DEPTH
    requires n.DirNode? && GoodHeader(n) && dst == Dest(st, target, n.name) && Vacant(st.fs, dst)
    requires AllRun(w, Entered(st, dst, n, preserve), dst, n.children, preserve, EndText(rest))
    ensures NodeRuns(w, st, dst, n, preserve, rest)
  {
    var st1 := Entered(st, dst, n, preserve);
    var st2, st3 := AllDone(st1, dst, n.children, preserve), NodeDone(st, dst, n, preserve);
    var kids := SendAll(w, n.children, preserve) + EndText(rest);
    RunEnter(w, target, st, dst, n, preserve, rest);
    LeaveRuns(w, target, st, dst, n, preserve, rest, st2, st3);
    JoinRuns(w, st, Send(w, n, preserve) + rest, st1, kids, st2, EndText(rest), st3, rest);
  }

  /** The records of a node build it below its destination and leave the
      directory stack as they found it. */
  lemma {:induction false} RunNode(w: Wire, target: Path, st: Sink, dst: Path, n: Node, preserve: bool, rest: string)
    requires Reads(w, target) && Settled(st)
    requires WellFormed(n) && dst == Dest(st, target, n.name) && Vacant(st.fs, dst)
    requires |st.dirs| + Depth(n) <= MAX_DEPTH
    ensures NodeRuns(w, st, dst, n, preserve, rest)
    decreases n
  {
    if n.FileNode? {
      RunFileNode(w, target, st, dst, n, preserve, rest);
    } else {
      EnteredInside(st, dst, n, preserve);
      RunNodes(w, target, Entered(st, dst, n, preserve), dst, n.children, preserve, EndText(rest));
      RunDirNode(w, target, st, dst, n, preserve, rest);
    }
  }

  lemma ChildVacant(target: Path, st: Sink, dir: Path, ns: seq<Node>, preserve: bool)
    requires Inside(st, dir) && Room(st.fs, dir, ns) && ns != []
    ensures Dest(st, target, ns[0].name) == dir + [ns[0].name] && Vacant(st.fs, dir + [ns[0].name])
    ensures IsDir(Place(st.fs, dir + [ns[0].name], ns[0], preserve), dir)
  {
    var dst := dir + [ns[0].name];
    assert dst[..|dst| - 1] == dir;
    if dir != [] {
      PlaceFrame(st.fs, dst, ns[0], preserve, dir);
    }
  }

  /** After the first child there is room for the others. */
  lemma NextChild(st: Sink, dir: Path, ns: seq<Node>, preserve: bool)
    requires Settled(st) && Inside(st, dir) && Room(st.fs, dir, ns) && ns != []
    ensures var st1 := NodeDone(st, dir + [ns[0].name], ns[0], preserve);
            Settled(st1) && Inside(st1, dir) && Room(st1.fs, dir, ns[1..]) && st1.dirs == st.dirs
  {
    ChildVacant([], st, dir, ns, preserve);
    RoomAfter(st.fs, dir, ns, preserve);
  }

  lemma NodesPlaced(st: Sink, dir: Path, ns: seq<Node>, preserve: bool)
    requires ns != []
    ensures AllDone(NodeDone(st, dir + [ns[0].name], ns[0], preserve), dir, ns[1..], preserve) ==
            AllDone(st, dir, ns, preserve)
  {
  }

  lemma JoinNodes(w: Wire, st: Sink, dir: Path, ns: seq<Node>, preserve: bool, rest: string)
    requires ns != []
    requires NodeRuns(w, st, dir + [ns[0].name], ns[0], preserve, SendAll(w, ns[1..], preserve) + rest)
    requires AllRun(w, NodeDone(st, dir + [ns[0].name], ns[0], preserve), dir, ns[1..], preserve, rest)
    ensures AllRun(w, st, dir, ns, preserve, rest)
  {
    AllStream(w, ns, preserve, rest);
    NodesPlaced(st, dir, ns, preserve);
  }

  lemma {:induction false} RunNodes(w: Wire, target: Path, st: Sink, dir: Path, ns: seq<Node>, preserve: bool, rest: string)
    requires Reads(w, target) && Settled(st) && Inside(st, dir) && Room(st.fs, dir, ns)
    requires |st.dirs| + MaxDepth(ns) <= MAX_DEPTH
    ensures AllRun(w, st, dir, ns, preserve, rest)
    decreases ns
  {
    if ns == [] {
      assert SendAll(w, ns, preserve) + rest == rest;
    } else {
      var n, tail := ns[0], ns[1..];
      var dst := dir + [n.name];
      ChildVacant(target, st, dir, ns, preserve);
      RunNode(w, target, st, dst, n, preserve, SendAll(w, tail, preserve) + rest);
      NextChild(st, dir, ns, preserve);
      RunNodes(w, target, NodeDone(st, dst, n, preserve), dir, tail, preserve, rest);
      JoinNodes(w, st, dir, ns, preserve, rest);
    }
  }

  // ---- Trees that are too deep ----------------------------------------------------------------

  lemma {:induction false} RunTooDeep(w: Wire, target: Path, st: Sink, dst: Path, n: Node, preserve: bool, rest: string)
    requires Reads(w, target) && Settled(st)
    requires WellFormed(n) && dst == Dest(st, target, n.name) && Vacant(st.fs, dst)
    requires |st.dirs| <= MAX_DEPTH < |st.dirs| + Depth(n)
    ensures w.run(st, Send(w, n, preserve) + rest) == Failed
    decreases n
  {
    RunEnter(w, target, st, dst, n, preserve, rest);
    if |st.dirs| < MAX_DEPTH {
      EnteredInside(st, dst, n, preserve);
      RunAllTooDeep(w, target, Entered(st, dst, n, preserve), dst, n.children, preserve, EndText(rest));
    }
  }

  lemma {:induction false} RunAllTooDeep(w: Wire, target: Path, st: Sink, dir: Path, ns: seq<Node>, preserve: bool, rest: string)
    requires Reads(w, target) && Settled(st) && Inside(st, dir) && Room(st.fs, dir, ns)
    requires |st.dirs| <= MAX_DEPTH < |st.dirs| + MaxDepth(ns)
    ensures w.run(st, SendAll(w, ns, preserve) + rest) == Failed
    decreases ns
  {
    var n, tail := ns[0], ns[1..];
    var dst, after := dir + [n.name], SendAll(w, tail, preserve) + rest;
    AllStream(w, ns, preserve, rest);
    ChildVacant(target, st, dir, ns, preserve);
    if |st.dirs| + Depth(n) > MAX_DEPTH {
      RunTooDeep(w, target, st, dst, n, preserve, after);
    } else {
      RunNode(w, target, st, dst, n, preserve, after);
      NextChild(st, dir, ns, preserve);
      RunAllTooDeep(w, target, NodeDone(st, dst, n, preserve), dir, tail, preserve, rest);
    }
  }

  // ---- The main result --------------------------------------------------------------------------

  lemma RunTree(w: Wire, target: Path, st: Sink, dst: Path, n: Node, preserve: bool)
    requires Reads(w, target) && Settled(st) && st.dirs == []
    requires WellFormed(n) && dst == Dest(st, target, n.name) && Vacant(st.fs, dst)
    ensures w.run(st, Send(w, n, preserve)) ==
            if Depth(n) <= MAX_DEPTH
            then w.run(st.(fs := Place(st.fs, dst, n, preserve), acks := st.acks + Acks(n, preserve)), "")
            else Failed
  {
    assert Send(w, n, preserve) + "" == Send(w, n, preserve);
    if Depth(n) <= MAX_DEPTH {
      RunNode(w, target, st, dst, n, preserve, "");
    } else {
      RunTooDeep(w, target, st, dst, n, preserve, "");
    }
  }

  /** SCP tree round trip. Sent to a place where nothing exists yet, a tree of
      depth at most 128 is rebuilt: every path below the destination holds
      exactly what the tree has there, every other path is untouched, and every
      ack the sender waits for is written. A deeper tree is refused. */
  lemma TreeRoundTrip(fs: FileSystem, target: Path, n: Node, preserve: bool)
    requires WellFormed(n)
    requires Vacant(fs, Dest(Sink(fs, [], [], None, 1), target, n.name))
    ensures var st := Sink(fs, [], [], None, 1);
            var dst := Dest(st, target, n.name);
            var fs' := Place(fs, dst, n, preserve);
            && Run(target, true, st, Send(Real(target, true), n, preserve)) ==
               (if Depth(n) <= MAX_DEPTH then Done(st.(fs := fs', acks := 1 + Acks(n, preserve))) else Failed)
            && (forall rel: Path :: Get(fs', dst + rel) == At(n, preserve, rel))
            && (forall q: Path | !(dst <= q) :: Get(fs', q) == Get(fs, q))
  {
    var st, w := Sink(fs, [], [], None, 1), Real(target, true);
    var dst := Dest(st, target, n.name);
    var fs' := Place(fs, dst, n, preserve);
    RealReads(target);
    RunTree(w, target, st, dst, n, preserve);
    forall rel: Path ensures Get(fs', dst + rel) == At(n, preserve, rel) {
      PlaceAt(fs, dst, n, preserve, rel);
    }
    forall q: Path | !(dst <= q) ensures Get(fs', q) == Get(fs, q) {
      PlaceFrame(fs, dst, n, preserve, q);
    }
  }
}
