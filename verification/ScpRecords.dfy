/** The text records of the scp protocol: printed by the sender, parsed by the
    receiver. */
module ScpRecords {
  import opened Text

  const INT64: int := 0x8000_0000_0000_0000

  // ---- Names -------------------------------------------------------------------------

  /** validateSCPFileName, on single-byte characters. */
  predicate ValidName(name: string) {
    var t := TrimSpace(name);
    && t != "" && t != "." && t != ".."
    && forall i | 0 <= i < |t| :: t[i] != '/' && t[i] != '\\' && !(t[i] < ' ') && t[i] != 127 as char
  }

  // ---- Numbers -------------------------------------------------------------------------

  /** "%04o" of the permission bits of a mode. */
  function Octal4(mode: nat): string {
    [DigitChar(0), DigitChar(mode / 64 % 8), DigitChar(mode / 8 % 8), DigitChar(mode % 8)]
  }

  /** strconv.ParseUint(s, 8, 32). */
  function ParseOctal(s: string): Option<nat> {
    match ParseNumeral(s, 8)
    case Some(n) => if n < 0x1_0000_0000 then Some(n) else None
    case None => None
  }

  function IntText(n: int): string {
    if n < 0 then "-" + Decimal(-n) else Decimal(n)
  }

  /** strconv.ParseInt(s, 10, 64). */
  function ParseInt(s: string): Option<int> {
    if s != "" && s[0] == '-' then
      match ParseNumeral(s[1..], 10)
      case Some(n) => if n <= INT64 then Some((-1) * n) else None
      case None => None
    else
      match ParseNumeral(if s != "" && s[0] == '+' then s[1..] else s, 10)
      case Some(n) => if n < INT64 then Some(n) else None
      case None => None
  }

  lemma ParseIntText(n: int)
    requires -INT64 <= n < INT64
    ensures ParseInt(IntText(n)) == Some(n)
  {
    var m := if n < 0 then -n else n;
    DecimalRoundTrip(m);
    if n < 0 {
      assert IntText(n)[1..] == Decimal(m);
    } else {
      assert IsDigit(Decimal(m)[0], 10);
    }
  }

  lemma OctalValue(a: char, b: char, c: char, d: char)
    requires IsDigit(a, 8) && IsDigit(b, 8) && IsDigit(c, 8) && IsDigit(d, 8)
    ensures AllDigits([a, b, c, d], 8)
    ensures var z := '0' as int;
            NumeralValue([a, b, c, d], 8) == ((((a as int - z) * 8 + (b as int - z)) * 8 + (c as int - z)) * 8) + (d as int - z)
  {
    ValueSnoc("", a, 8);
    ValueSnoc([a], b, 8);
    ValueSnoc([a, b], c, 8);
    ValueSnoc([a, b, c], d, 8);
    assert "" + [a] == [a] && [a] + [b] == [a, b] && [a, b] + [c] == [a, b, c] && [a, b, c] + [d] == [a, b, c, d];
  }

  lemma OctalDigits(mode: nat)
    requires mode < 512
    ensures (mode / 64 % 8 * 8 + mode / 8 % 8) * 8 + mode % 8 == mode
  {
  }

  lemma ParseOctal4(mode: nat)
    requires mode < 512
    ensures ParseOctal(Octal4(mode)) == Some(mode)
  {
    var b, c, d := mode / 64 % 8, mode / 8 % 8, mode % 8;
    OctalDigits(mode);
    OctalFour(b, c, d);
  }

  lemma OctalFour(b: nat, c: nat, d: nat)
    requires b < 8 && c < 8 && d < 8
    ensures ParseOctal([DigitChar(0), DigitChar(b), DigitChar(c), DigitChar(d)]) == Some((b * 8 + c) * 8 + d)
  {
    OctalValue(DigitChar(0), DigitChar(b), DigitChar(c), DigitChar(d));
  }

  // ---- "C" and "D" records ----------------------------------------------------------------

  datatype Record = Record(mode: nat, size: nat, name: string)

  /** strings.SplitN(s, " ", 3) when it yields three parts. */
  function SplitN3(s: string): Option<(string, string, string)> {
    var i := IndexOf(s, ' ');
    if i == |s| then None else
    var r := s[i + 1..];
    var j := IndexOf(r, ' ');
    if j == |r| then None else Some((s[..i], r[..j], r[j + 1..]))
  }

  /** parseSCPRecord; the mode is masked to permission bits. */
  function ParseRecord(header: string, kind: char): Option<Record> {
    if |header| < 2 || header[0] != kind then None
    else
      match SplitN3(header[1..])
      case None => None
      case Some((modeText, sizeText, nameText)) =>
        match (ParseOctal(modeText), ParseInt(sizeText))
        case (Some(m), Some(size)) =>
          var name := TrimSpace(nameText);
          if size < 0 || !ValidName(name) then None else Some(Record(m % 512, size, name))
        case _ => None
  }

  /** The record without its line break. */
  function RecordText(kind: char, mode: nat, size: nat, name: string): string {
    [kind] + (Octal4(mode) + " " + (Decimal(size) + " " + name))
  }

  lemma SplitN3Of(a: string, b: string, c: string)
    requires ' ' !in a && ' ' !in b
    ensures SplitN3(a + " " + (b + " " + c)) == Some((a, b, c))
  {
    IndexOfConcat(a, ' ', b + " " + c);
    IndexOfConcat(b, ' ', c);
  }

  lemma DigitsHaveNoSpace(s: string, base: nat)
    requires AllDigits(s, base)
    ensures ' ' !in s && '\n' !in s
  {
  }

  lemma ParseFields(header: string, kind: char, m: string, d: string, mode: nat, size: nat, name: string)
    requires |header| >= 2 && header[0] == kind && SplitN3(header[1..]) == Some((m, d, name))
    requires ParseOctal(m) == Some(mode) && ParseInt(d) == Some(size) && mode < 512
    requires ValidName(name) && TrimSpace(name) == name
    ensures ParseRecord(header, kind) == Some(Record(mode, size, name))
  {
  }

  /** Parsing a printed record gives back its fields. */
  lemma RecordRoundTrip(kind: char, mode: nat, size: nat, name: string)
    requires mode < 512 && size < INT64 && ValidName(name) && Trimmed(name)
    ensures ParseRecord(RecordText(kind, mode, size, name), kind) == Some(Record(mode, size, name))
  {
    var m, d, t := Octal4(mode), Decimal(size), RecordText(kind, mode, size, name);
    ParseOctal4(mode);
    ParseIntText(size);
    DigitsHaveNoSpace(m, 10);
    DigitsHaveNoSpace(d, 10);
    SplitN3Of(m, d, name);
    assert t[1..] == m + " " + (d + " " + name);
    TrimSpaceKeeps(name);
    ParseFields(t, kind, m, d, mode, size, name);
  }

  /** A printed record is one line that trimming leaves alone. */
  lemma RecordIsLine(kind: char, mode: nat, size: nat, name: string)
    requires mode < 512 && size < INT64 && ValidName(name) && Trimmed(name) && !IsSpace(kind)
    ensures var t := RecordText(kind, mode, size, name);
            '\n' !in t && t != "" && t[0] == kind && TrimSpace(t) == t && |t| <= 26 + |name|
  {
    var t := RecordText(kind, mode, size, name);
    var d := Decimal(size);
    TrimSpaceKeeps(name);
    DigitsHaveNoSpace(Octal4(mode), 10);
    DigitsHaveNoSpace(d, 10);
    assert '\n' !in name;
    assert '\n' !in d + " " + name;
    assert t[|t| - 1] == name[|name| - 1];
    TrimSpaceKeeps(t);
    assert Pow10(10) == 10000000000 && Pow10(19) == 10000000000000000000;
    DecimalLength(size, 19);
  }

  // ---- "T" records -------------------------------------------------------------------------

  datatype Times = Times(atime: int, mtime: int)

  /** strings.Fields. */
  function Fields(s: string): seq<string>
    decreases |s|
  {
    if s == "" then []
    else if IsSpace(s[0]) then Fields(s[1..])
    else
      var n := WordLength(s);
      [s[..n]] + Fields(s[n..])
  }

  function WordLength(s: string): (n: nat)
    ensures n <= |s|
    ensures s != "" && !IsSpace(s[0]) ==> n > 0
  {
    if s == "" || IsSpace(s[0]) then 0 else 1 + WordLength(s[1..])
  }

  predicate Solid(s: string) { s != "" && forall i | 0 <= i < |s| :: !IsSpace(s[i]) }

  lemma {:induction false} WordLengthOf(w: string, rest: string)
    requires forall i | 0 <= i < |w| :: !IsSpace(w[i])
    requires rest == "" || IsSpace(rest[0])
    ensures WordLength(w + rest) == |w|
  {
    if w == "" {
      assert w + rest == rest;
    } else {
      assert (w + rest)[1..] == w[1..] + rest;
      WordLengthOf(w[1..], rest);
    }
  }

  lemma FieldsCons(w: string, rest: string)
    requires Solid(w)
    ensures Fields(w + " " + rest) == [w] + Fields(rest)
  {
    var s := w + " " + rest;
    assert s == w + (" " + rest);
    WordLengthOf(w, " " + rest);
    assert s[..|w|] == w && s[|w|..] == " " + rest;
    assert (" " + rest)[1..] == rest;
  }

  lemma FieldsLast(w: string)
    requires Solid(w)
    ensures Fields(w) == [w]
  {
    WordLengthOf(w, "");
    assert w + "" == w && w[..|w|] == w && w[|w|..] == "";
  }

  /** parseSCPTimes: None when malformed or before 1970. */
  function ParseTimes(header: string): Option<Times> {
    var f := Fields(if "T" <= header then header[1..] else header);
    if |f| != 4 then None
    else
      match (ParseInt(f[0]), ParseInt(f[2]))
      case (Some(m), Some(a)) => if m < 0 || a < 0 then None else Some(Times(a, m))
      case _ => None
  }

  function TimesText(mtime: int): string {
    "T" + (IntText(mtime) + " " + ("0" + " " + (IntText(mtime) + " " + "0")))
  }

  /** Times from 1970 on survive; earlier ones are dropped. */
  lemma TimesRoundTrip(mtime: int)
    requires -INT64 <= mtime < INT64
    ensures ParseTimes(TimesText(mtime)) == if mtime >= 0 then Some(Times(mtime, mtime)) else None
  {
    ParseIntText(mtime);
    TimesFields(mtime);
  }

  lemma TimesFields(mtime: int)
    ensures Fields(TimesText(mtime)[1..]) == [IntText(mtime), "0", IntText(mtime), "0"]
  {
    var d := IntText(mtime);
    assert Solid(d);
    FieldsLast("0");
    FieldsCons(d, "0");
    FieldsCons("0", d + " " + "0");
    FieldsCons(d, "0" + " " + (d + " " + "0"));
    assert [d] + (["0"] + ([d] + ["0"])) == [d, "0", d, "0"];
    assert TimesText(mtime)[1..] == d + " " + ("0" + " " + (d + " " + "0"));
  }

  lemma TimesIsLine(mtime: int)
    requires -INT64 <= mtime < INT64
    ensures var t := TimesText(mtime);
            '\n' !in t && t != "" && t[0] == 'T' && TrimSpace(t) == t && |t| <= 50
  {
    var t, d := TimesText(mtime), IntText(mtime);
    assert '\n' !in d;
    assert t[|t| - 1] == '0';
    TrimSpaceKeeps(t);
    assert Pow10(10) == 10000000000 && Pow10(19) == 10000000000000000000;
    DecimalLength(if mtime < 0 then -mtime else mtime, 19);
    assert '\n' !in d + " " + "0" && '\n' !in "0" + " " + (d + " " + "0");
  }
}
