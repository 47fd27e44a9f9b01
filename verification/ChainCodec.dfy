/** The on-disk form of a tamper-evident audit record: an encoded event whose
    closing brace is replaced by a "chain" field carrying the record's sequence
    number, the MAC of its predecessor and its own MAC. */
module ChainCodec {
  import opened Text

  // Sequence numbers are uint64 and wrap around.
  const TWO64: nat := 0x1_0000_0000_0000_0000

  function SeqSucc(n: nat): nat { (n + 1) % TWO64 }

  function SeqPred(n: nat): nat { (n + TWO64 - 1) % TWO64 }

  datatype ChainState = ChainState(seqNo: nat, prev: string, mac: string)

  /** What the code calls but this model does not look into:
      - mac: the hex HMAC-SHA256, under the configured key, of Message(..);
      - key: the "<last_seq>/<last_mac>" text by which an audit.pruned record
        names the last record it removed;
      - decode: json.Unmarshal of a chain field;
      - claim: json.Unmarshal of an event, giving that text for an audit.pruned
        event and None for any other;
      - split: splitChained, which Faithful ties to SplitChained below. */
  datatype Env = Env(
    mac: (nat, string, string) -> string,
    key: (nat, string) -> string,
    decode: string -> Option<ChainState>,
    claim: string -> Option<string>,
    split: string -> Split)

  const MARKER: string := ",\"chain\":{"

  predicate IsHex(s: string) {
    forall i | 0 <= i < |s| :: '0' <= s[i] <= '9' || 'a' <= s[i] <= 'f'
  }

  /** The chain states that seal produces. */
  predicate Canonical(st: ChainState) {
    st.seqNo < TWO64 && IsHex(st.prev) && IsHex(st.mac)
  }

  function Message(seqNo: nat, prev: string, event: string): string {
    Decimal(seqNo) + "\n" + prev + "\n" + event
  }

  /** json.Marshal of a chain state whose strings need no escaping. */
  function EncodeState(st: ChainState): string {
    "{\"seq\":" + Decimal(st.seqNo) + ",\"prev\":\"" + st.prev + "\",\"mac\":\"" + st.mac + "\"}"
  }

  /** A JSON decoder reads back what json.Marshal wrote, and HMAC output is a
      non-empty hex string of bounded length. */
  ghost predicate Faithful(env: Env) {
    && (forall st: ChainState | Canonical(st) :: env.decode(EncodeState(st)) == Some(st))
    && (forall line: string :: env.split(line) == SplitChained(env.decode, line))
    && HexMacs(env)
  }

  ghost predicate HexMacs(env: Env) {
    forall n: nat, p: string, e: string :: IsHex(env.mac(n, p, e)) && 0 < |env.mac(n, p, e)| <= 64
  }

  // ---- Sealing -----------------------------------------------------------

  datatype Chain = Chain(seqNo: nat, prev: string)

  predicate ValidChain(c: Chain) {
    c.seqNo < TWO64 && IsHex(c.prev) && |c.prev| <= 64
  }

  predicate Sealable(event: string) {
    var e := TrimSpace(event);
    |e| >= 2 && e[|e| - 1] == '}'
  }

  function NextState(env: Env, c: Chain, event: string): ChainState {
    var n := SeqSucc(c.seqNo);
    ChainState(n, c.prev, env.mac(n, c.prev, TrimSpace(event)))
  }

  /** The chain field with its marker and the brace that closes the event. */
  function Field(st: ChainState): string {
    MARKER + EncodeState(st)[1..] + "}"
  }

  function SealedLine(event: string, st: ChainState): string
    requires event != ""
  {
    event[..|event| - 1] + Field(st)
  }

  /** chain.seal: None for an event that is not a JSON object. */
  function Seal(env: Env, c: Chain, event: string): Option<(string, ChainState)> {
    if !Sealable(event) then None
    else
      var st := NextState(env, c, event);
      Some((SealedLine(TrimSpace(event), st), st))
  }

  /** chain.commit. */
  function Commit(st: ChainState): Chain {
    Chain(st.seqNo, st.mac)
  }

  // ---- Splitting ---------------------------------------------------------

  datatype Split = Unchained | Malformed | Chained(event: string, st: ChainState)

  function SplitChained(decode: string -> Option<ChainState>, line: string): Split {
    var idx := LastIndex(line, MARKER);
    if idx < 0 then Unchained
    else if line[|line| - 1] != '}' then Malformed
    else
      assert line[idx + 9] == MARKER[9];
      match decode(line[idx + 9..|line| - 1])
      case None => Malformed
      case Some(st) => Chained(line[..idx] + "}", st)
  }

  lemma JoinLacks(c: char, a: string, b: string)
    requires c !in a && c !in b
    ensures c !in a + b
  {
  }

  lemma StateLacks(st: ChainState, c: char)
    requires Canonical(st) && (c == '{' || c == '\n')
    ensures c !in EncodeState(st)[1..]
  {
    var p1, p2, p3, p4 := "\"seq\":", ",\"prev\":\"", "\",\"mac\":\"", "\"}";
    var a := Decimal(st.seqNo);
    JoinLacks(c, p1, a);
    JoinLacks(c, p1 + a, p2);
    JoinLacks(c, p1 + a + p2, st.prev);
    JoinLacks(c, p1 + a + p2 + st.prev, p3);
    JoinLacks(c, p1 + a + p2 + st.prev + p3, st.mac);
    JoinLacks(c, p1 + a + p2 + st.prev + p3 + st.mac, p4);
    StateBody(st);
  }

  lemma StateBody(st: ChainState)
    ensures EncodeState(st)[1..] ==
            "\"seq\":" + Decimal(st.seqNo) + ",\"prev\":\"" + st.prev + "\",\"mac\":\"" + st.mac + "\"}"
  {
    assert "{\"seq\":"[1..] == "\"seq\":";
  }

  /** The shape of a field whose state is written as e. */
  lemma FieldOf(e: string)
    requires |e| > 1 && e[0] == '{' && '{' !in e[1..] && '\n' !in e[1..]
    ensures var f := MARKER + e[1..] + "}";
            && |f| > 10 && f[..10] == MARKER && f[0] == ',' && f[9] == '{' && f[|f| - 1] == '}'
            && f[9..|f| - 1] == e
            && '{' !in f[10..] && '\n' !in f
  {
    var f := MARKER + e[1..] + "}";
    assert f[10..] == e[1..] + "}";
    assert f == MARKER + f[10..];
  }

  lemma FieldShape(st: ChainState)
    requires Canonical(st)
    ensures var f := Field(st);
            && |f| > 10 && f[..10] == MARKER && f[0] == ',' && f[9] == '{' && f[|f| - 1] == '}'
            && f[9..|f| - 1] == EncodeState(st)
            && '{' !in f[10..] && '\n' !in f
  {
    StateLacks(st, '{');
    StateLacks(st, '\n');
    FieldOf(EncodeState(st));
  }

  /** However the text before it looks, the last marker of a sealed line is the
      structural one, because the chain field itself holds no opening brace. */
  lemma LastMarkerIsStructural(head: string, f: string)
    requires |f| >= 10 && f[..10] == MARKER && '{' !in f[10..]
    ensures LastIndex(head + f, MARKER) == |head|
  {
    var line := head + f;
    assert line[|head|..|head| + 10] == f[..10];
    assert OccursAt(line, MARKER, |head|);
    forall i | |head| < i ensures !OccursAt(line, MARKER, i) {
      if i + 10 <= |line| {
        assert line[i + 9] == f[10..][i + 9 - |head| - 10] != '{';
        assert line[i..i + 10][9] == line[i + 9];
      }
    }
    LastIndexIs(line, MARKER, |head|, |line|);
  }

  /** Splitting any text that ends in a chain field recovers the field, also
      when only a suffix of the sealed line was read. */
  lemma SplitRecovers(env: Env, head: string, st: ChainState)
    requires Faithful(env) && Canonical(st)
    ensures env.split(head + Field(st)) == Chained(head + "}", st)
  {
    var f := Field(st);
    FieldShape(st);
    LastMarkerIsStructural(head, f);
    var line := head + f;
    assert line[|head| + 9..|line| - 1] == f[9..|f| - 1];
    assert line[..|head|] == head;
  }

  lemma NextStateCanonical(env: Env, c: Chain, event: string)
    requires Faithful(env) && ValidChain(c)
    ensures Canonical(NextState(env, c, event)) && ValidChain(Commit(NextState(env, c, event)))
  {
  }

  /** Sealed-line round trip: the verifier's view of a sealed line (after its
      own trimming) is exactly the event that was sealed and its state, even if
      the event bytes contain the marker. */
  lemma SealRoundTrip(env: Env, c: Chain, event: string)
    requires Faithful(env) && ValidChain(c) && Sealable(event)
    ensures Seal(env, c, event).Some?
    ensures var (line, st) := Seal(env, c, event).value;
            && TrimSpace(line) == line
            && env.split(line) == Chained(TrimSpace(event), st)
            && st.mac == env.mac(st.seqNo, st.prev, TrimSpace(event))
  {
    var e := TrimSpace(event);
    var st := NextState(env, c, event);
    var line := SealedLine(e, st);
    NextStateCanonical(env, c, event);
    SplitRecovers(env, e[..|e| - 1], st);
    assert e[..|e| - 1] + "}" == e;
    FieldShape(st);
    TrimSpaceTrims(event);
    assert line[0] == e[0] && line[|line| - 1] == '}';
    TrimSpaceKeeps(line);
  }

  // ---- Framing of the MAC input -------------------------------------------

  lemma OneBreak(p: string, e: string)
    requires '\n' !in p && '\n' !in e
    ensures var r := p + ['\n'] + e;
            forall i | 0 <= i < |r| && r[i] == '\n' :: i == |p|
  {
  }

  /** The text under the MAC determines the record: no two different records
      without line breaks in prev or event share a message. One side may even
      have line breaks in prev (a decoded JSON string can). */
  lemma FramingInjective(n1: nat, p1: string, e1: string, n2: nat, p2: string, e2: string)
    requires '\n' !in p1 && '\n' !in e1 && '\n' !in e2
    requires Message(n1, p1, e1) == Message(n2, p2, e2)
    ensures n1 == n2 && p1 == p2 && e1 == e2
  {
    var m1, m2 := Message(n1, p1, e1), Message(n2, p2, e2);
    var d1, d2 := Decimal(n1), Decimal(n2);
    assert m1 == d1 + ['\n'] + (p1 + "\n" + e1);
    assert m2 == d2 + ['\n'] + (p2 + "\n" + e2);
    IndexOfConcat(d1, '\n', p1 + "\n" + e1);
    IndexOfConcat(d2, '\n', p2 + "\n" + e2);
    DecimalInjective(n1, n2);
    var r := p1 + ['\n'] + e1;
    assert r == p2 + ['\n'] + e2;
    OneBreak(p1, e1);
    assert r[|p2|] == '\n';
    assert p2 == r[..|p2|] && e2 == r[|p2| + 1..];
  }

  // ---- A concrete decoder --------------------------------------------------

  /** Splits s at the first c, which must be followed by the rest of sep. */
  function CutAt(s: string, sep: string): Option<(string, string)>
    requires sep != ""
  {
    var i := IndexOf(s, sep[0]);
    if sep <= s[i..] then Some((s[..i], s[i + |sep|..])) else None
  }

  lemma CutAtConcat(a: string, sep: string, b: string)
    requires sep != "" && sep[0] !in a
    ensures CutAt(a + sep + b, sep) == Some((a, b))
  {
    var s := a + sep + b;
    assert s == a + [sep[0]] + (sep[1..] + b);
    IndexOfConcat(a, sep[0], sep[1..] + b);
    assert s[|a|..] == sep + b;
    assert s[|a| + |sep|..] == b;
  }

  /** Reads exactly the shape json.Marshal writes; witnesses that a faithful
      decoder exists. */
  function DecodeState(s: string): Option<ChainState> {
    var pre := "{\"seq\":";
    if !(pre <= s) then None else
    match CutAt(s[|pre|..], ",\"prev\":\"")
    case None => None
    case Some((num, s2)) =>
      match CutAt(s2, "\",\"mac\":\"")
      case None => None
      case Some((prev, s3)) =>
        match CutAt(s3, "\"}")
        case None => None
        case Some((mac, rest)) =>
          match ParseNumeral(num, 10)
          case None => None
          case Some(n) => if n < TWO64 && rest == "" then Some(ChainState(n, prev, mac)) else None
  }

  lemma DecodeEncodeState(st: ChainState)
    requires Canonical(st)
    ensures DecodeState(EncodeState(st)) == Some(st)
  {
    var pre, mid, mac := "{\"seq\":", ",\"prev\":\"", "\",\"mac\":\"";
    var s3 := st.mac + "\"}" + "";
    var s2 := st.prev + mac + s3;
    var s1 := Decimal(st.seqNo) + mid + s2;
    assert s3 == st.mac + "\"}";
    assert EncodeState(st) == pre + s1;
    assert (pre + s1)[|pre|..] == s1;
    DecimalRoundTrip(st.seqNo);
    CutAtConcat(Decimal(st.seqNo), mid, s2);
    CutAtConcat(st.prev, mac, s3);
    CutAtConcat(st.mac, "\"}", "");
  }
}
