/** The LDAP filter compiler: filter text (section 3 of RFC 4515) to the BER
    Filter (section 4.5.1.7 of RFC 4511), for and, or, equality and presence. */
module LdapFilter {
  import opened Text
  import opened Ber

  datatype Filter =
    | And(fs: seq<Filter>)
    | Or(fs: seq<Filter>)
    | Equal(attr: string, value: string)
    | Present(attr: string)

  // ---- Escaping --------------------------------------------------------------------------

  /** escapeLDAPFilterValue, one character at a time. */
  function EscapeChar(c: char): string {
    if c == '\\' then "\\5c"
    else if c == '*' then "\\2a"
    else if c == '(' then "\\28"
    else if c == ')' then "\\29"
    else if c == 0 as char then "\\00"
    else [c]
  }

  function Escape(s: string): string {
    if s == "" then "" else EscapeChar(s[0]) + Escape(s[1..])
  }

  function HexDigit(c: char): Option<nat> {
    if '0' <= c <= '9' then Some(c as int - '0' as int)
    else if 'a' <= c <= 'f' then Some(c as int - 'a' as int + 10)
    else if 'A' <= c <= 'F' then Some(c as int - 'A' as int + 10)
    else None
  }

  /** unescapeLDAPFilterValue: a backslash with fewer than two characters after
      it is kept as it is. */
  function Unescape(s: string): Option<string> {
    if s == "" then Some("")
    else if s[0] != '\\' || |s| < 3 then Prefixed(s[0], Unescape(s[1..]))
    else
      match (HexDigit(s[1]), HexDigit(s[2]))
      case (Some(a), Some(b)) => Prefixed((a * 16 + b) as char, Unescape(s[3..]))
      case _ => None
  }

  function Prefixed(c: char, r: Option<string>): Option<string> {
    if r.Some? then Some([c] + r.value) else None
  }

  method UnescapeValue(s: string) returns (r: Option<string>)
    ensures r == Unescape(s)
  {
    var out, i := "", 0;
    assert s[0..] == s;
    WithNothing(Unescape(s));
    while i < |s|
      invariant 0 <= i <= |s|
      invariant Unescape(s) == With(out, Unescape(s[i..]))
      decreases |s| - i
    {
      if s[i] != '\\' || i + 2 >= |s| {
        assert s[i..][1..] == s[i + 1..];
        WithOne(out, s[i], Unescape(s[i + 1..]));
        out, i := out + [s[i]], i + 1;
      } else {
        assert s[i..][1] == s[i + 1] && s[i..][2] == s[i + 2] && s[i..][3..] == s[i + 3..];
        var a, b := HexDigit(s[i + 1]), HexDigit(s[i + 2]);
        if a.None? || b.None? {
          return None;
        }
        var c := (a.value * 16 + b.value) as char;
        WithOne(out, c, Unescape(s[i + 3..]));
        out, i := out + [c], i + 3;
      }
    }
    assert s[i..] == "" && out + "" == out;
    return Some(out);
  }

  function With(out: string, r: Option<string>): Option<string> {
    if r.Some? then Some(out + r.value) else None
  }

  lemma WithNothing(r: Option<string>)
    ensures With("", r) == r
  {
    if r.Some? {
      assert "" + r.value == r.value;
    }
  }

  lemma WithOne(out: string, c: char, r: Option<string>)
    ensures With(out, Prefixed(c, r)) == With(out + [c], r)
  {
    if r.Some? {
      assert out + ([c] + r.value) == out + [c] + r.value;
    }
  }

  lemma UnescapeOne(c: char, rest: string)
    ensures Unescape(EscapeChar(c) + rest) == Prefixed(c, Unescape(rest))
  {
    var s := EscapeChar(c) + rest;
    if |EscapeChar(c)| == 3 {
      assert s[3..] == rest;
      assert HexDigit('5') == Some(5) && HexDigit('c') == Some(12) && HexDigit('2') == Some(2)
             && HexDigit('a') == Some(10) && HexDigit('8') == Some(8) && HexDigit('9') == Some(9)
             && HexDigit('0') == Some(0);
    } else {
      assert s[1..] == rest;
    }
  }

  /** Unescaping undoes escaping, for every byte string. */
  lemma {:induction false} UnescapeEscape(s: string)
    ensures Unescape(Escape(s)) == Some(s)
  {
    if s != "" {
      UnescapeOne(s[0], Escape(s[1..]));
      UnescapeEscape(s[1..]);
      assert [s[0]] + s[1..] == s;
    }
  }

  /** Escaped text holds nothing the filter grammar uses. */
  lemma {:induction false} EscapedIsInert(s: string)
    ensures ')' !in Escape(s) && '(' !in Escape(s) && '*' !in Escape(s)
  {
    if s != "" {
      EscapedIsInert(s[1..]);
    }
  }

  // ---- Printing and encoding -----------------------------------------------------------------

  /** A filter as it may be spelled: the value of an equality is raw filter text,
      in which any character may be escaped, in either case of hex. */
  datatype Spelling =
    | SAnd(ws: seq<Spelling>)
    | SOr(ws: seq<Spelling>)
    | SEqual(attr: string, text: string)
    | SPresent(attr: string)

  function Show(w: Spelling): string
    decreases w
  {
    match w
    case SAnd(ws) => "(&" + ShowAll(ws) + ")"
    case SOr(ws) => "(|" + ShowAll(ws) + ")"
    case SEqual(a, text) => "(" + a + "=" + text + ")"
    case SPresent(a) => "(" + a + "=" + "*" + ")"
  }

  function ShowAll(ws: seq<Spelling>): string
    decreases ws
  {
    if ws == [] then "" else Show(ws[0]) + ShowAll(ws[1..])
  }

  /** The text stands for a value: it ends nowhere, is not the presence star, and
      its escapes are escapes. */
  predicate ValueText(text: string) {
    ')' !in text && text != "*" && Unescape(text).Some?
  }

  predicate Legible(w: Spelling)
    decreases w
  {
    match w
    case SAnd(ws) => forall i | 0 <= i < |ws| :: Legible(ws[i])
    case SOr(ws) => forall i | 0 <= i < |ws| :: Legible(ws[i])
    case SEqual(a, text) => PlainAttr(a) && ValueText(text)
    case SPresent(a) => PlainAttr(a)
  }

  /** The filter that is spelled. */
  function Sense(w: Spelling): Filter
    requires Legible(w)
    decreases w
  {
    match w
    case SAnd(ws) => And(SenseAll(ws))
    case SOr(ws) => Or(SenseAll(ws))
    case SEqual(a, text) => Equal(a, Unescape(text).value)
    case SPresent(a) => Present(a)
  }

  function SenseAll(ws: seq<Spelling>): (fs: seq<Filter>)
    requires forall i | 0 <= i < |ws| :: Legible(ws[i])
    ensures |fs| == |ws| && forall i | 0 <= i < |ws| :: fs[i] == Sense(ws[i])
    decreases ws
  {
    if ws == [] then [] else [Sense(ws[0])] + SenseAll(ws[1..])
  }

  /** The spelling that escapes what has to be escaped. */
  function Spell(f: Filter): Spelling
    decreases f
  {
    match f
    case And(fs) => SAnd(SpellAll(fs))
    case Or(fs) => SOr(SpellAll(fs))
    case Equal(a, v) => SEqual(a, Escape(v))
    case Present(a) => SPresent(a)
  }

  function SpellAll(fs: seq<Filter>): (ws: seq<Spelling>)
    ensures |ws| == |fs| && forall i | 0 <= i < |fs| :: ws[i] == Spell(fs[i])
    decreases fs
  {
    if fs == [] then [] else [Spell(fs[0])] + SpellAll(fs[1..])
  }

  function Print(f: Filter): string { Show(Spell(f)) }

  const TAG_AND: char := 0xA0 as char
  const TAG_OR: char := 0xA1 as char
  const TAG_EQUAL: char := 0xA3 as char
  const TAG_PRESENT: char := 0x87 as char
  const TAG_STRING: char := 0x04 as char

  function EncodeEqual(attr: string, value: string): string {
    EncodeTLV(TAG_EQUAL, EncodeTLV(TAG_STRING, attr) + EncodeTLV(TAG_STRING, value))
  }

  /** The BER Filter of a tree. */
  function Encoding(f: Filter): string
    decreases f
  {
    match f
    case And(fs) => EncodeTLV(TAG_AND, EncodingAll(fs))
    case Or(fs) => EncodeTLV(TAG_OR, EncodingAll(fs))
    case Equal(a, v) => EncodeEqual(a, v)
    case Present(a) => EncodeTLV(TAG_PRESENT, a)
  }

  function EncodingAll(fs: seq<Filter>): string
    decreases fs
  {
    if fs == [] then "" else Encoding(fs[0]) + EncodingAll(fs[1..])
  }

  // ---- The parser ----------------------------------------------------------------------------

  /** The encoding of the filter read, and the text after it. */
  datatype Parse = Parsed(ber: string, rest: string) | Bad

  /** parseLDAPFilterAt, on the text from its start position on. */
  function ParseAt(s: string): (r: Parse)
    ensures r.Parsed? ==> |r.rest| < |s|
    decreases |s|, 0
  {
    if |s| < 2 || s[0] != '(' then Bad
    else if s[1] == '&' || s[1] == '|' then
      match ParseList(s[2..])
      case Bad => Bad
      case Parsed(children, rest) =>
        if rest == "" || rest[0] != ')' then Bad
        else Parsed(EncodeTLV(if s[1] == '|' then TAG_OR else TAG_AND, children), rest[1..])
    else ParseItem(s[1..])
  }

  /** The children of a list, up to the first character that opens none. */
  function ParseList(s: string): (r: Parse)
    ensures r.Parsed? ==> |r.rest| <= |s|
    decreases |s|, 1
  {
    if s == "" || s[0] != '(' then Parsed("", s)
    else
      match ParseAt(s)
      case Bad => Bad
      case Parsed(child, rest) =>
        match ParseList(rest)
        case Bad => Bad
        case Parsed(more, rest') => Parsed(child + more, rest')
  }

  /** An equality or presence item, after its opening parenthesis. */
  function ParseItem(s: string): (r: Parse)
    ensures r.Parsed? ==> |r.rest| < |s|
  {
    var eq := IndexOf(s, '=');
    if eq == |s| then Bad
    else
      var attr, tail := TrimSpace(s[..eq]), s[eq + 1..];
      var end := IndexOf(tail, ')');
      if end == |tail| then Bad
      else
        var value, rest := tail[..end], tail[end + 1..];
        if value == "*" then Parsed(EncodeTLV(TAG_PRESENT, attr), rest)
        else
          match Unescape(value)
          case None => Bad
          case Some(decoded) => Parsed(EncodeEqual(attr, decoded), rest)
  }

  /** parseLDAPFilter. */
  function ParseFilter(raw: string): Option<string> {
    match ParseAt(TrimSpace(raw))
    case Bad => None
    case Parsed(ber, rest) => if rest == "" then Some(ber) else None
  }

  // ---- Parsing a printed filter -----------------------------------------------------------------

  /** An attribute name that the text form can carry. */
  predicate PlainAttr(a: string) {
    '=' !in a && Trimmed(a) && (a != "" ==> a[0] != '&' && a[0] != '|')
  }

  predicate Plain(f: Filter)
    decreases f
  {
    match f
    case And(fs) => forall i | 0 <= i < |fs| :: Plain(fs[i])
    case Or(fs) => forall i | 0 <= i < |fs| :: Plain(fs[i])
    case Equal(a, _) => PlainAttr(a)
    case Present(a) => PlainAttr(a)
  }

  lemma ParseItemOf(a: string, value: string, rest: string)
    requires PlainAttr(a) && ')' !in value
    ensures ParseItem(a + "=" + value + ")" + rest) ==
            if value == "*" then Parsed(EncodeTLV(TAG_PRESENT, a), rest)
            else match Unescape(value)
              case None => Bad
              case Some(v) => Parsed(EncodeEqual(a, v), rest)
  {
    var tail := value + [')'] + rest;
    assert a + "=" + value + ")" + rest == a + ['='] + tail;
    IndexOfConcat(a, '=', tail);
    IndexOfConcat(value, ')', rest);
    TrimSpaceKeeps(a);
  }

  lemma ParseItemAt(a: string, value: string, rest: string)
    requires PlainAttr(a) && ')' !in value
    ensures ParseAt("(" + a + "=" + value + ")" + rest) == ParseItem(a + "=" + value + ")" + rest)
  {
    var s, item := "(" + a + "=" + value + ")" + rest, a + "=" + value + ")" + rest;
    assert s[1..] == item;
    assert s[1] == item[0] == if a != "" then a[0] else '=';
  }

  lemma ParseLeaf(w: Spelling, rest: string)
    requires (w.SEqual? || w.SPresent?) && Legible(w)
    ensures ParseAt(Show(w) + rest) == Parsed(Encoding(Sense(w)), rest)
  {
    var value := if w.SEqual? then w.text else "*";
    assert Show(w) + rest == "(" + w.attr + "=" + value + ")" + rest;
    ParseItemAt(w.attr, value, rest);
    ParseItemOf(w.attr, value, rest);
  }

  lemma ParseGroup(op: char, children: string, ber: string, rest: string)
    requires op == '&' || op == '|'
    requires ParseList(children + ")" + rest) == Parsed(ber, ")" + rest)
    ensures ParseAt(['(', op] + children + ")" + rest) ==
            Parsed(EncodeTLV(if op == '|' then TAG_OR else TAG_AND, ber), rest)
  {
    var s := ['(', op] + children + ")" + rest;
    assert s[2..] == children + ")" + rest;
    assert (")" + rest)[1..] == rest;
  }

  lemma {:induction false} ParseShow(w: Spelling, rest: string)
    requires Legible(w)
    ensures ParseAt(Show(w) + rest) == Parsed(Encoding(Sense(w)), rest)
    decreases w
  {
    if w.SEqual? || w.SPresent? {
      ParseLeaf(w, rest);
    } else {
      ParseShowAll(w.ws, rest);
      var op := if w.SOr? then '|' else '&';
      ParseGroup(op, ShowAll(w.ws), EncodingAll(SenseAll(w.ws)), rest);
      assert Show(w) + rest == ['(', op] + ShowAll(w.ws) + ")" + rest;
    }
  }

  lemma {:induction false} ParseShowAll(ws: seq<Spelling>, rest: string)
    requires forall i | 0 <= i < |ws| :: Legible(ws[i])
    ensures ParseList(ShowAll(ws) + ")" + rest) == Parsed(EncodingAll(SenseAll(ws)), ")" + rest)
    decreases ws
  {
    if ws == [] {
      assert ShowAll(ws) + ")" + rest == ")" + rest;
    } else {
      var tail := ShowAll(ws[1..]) + ")" + rest;
      assert ShowAll(ws) + ")" + rest == Show(ws[0]) + tail;
      ParseShow(ws[0], tail);
      ParseShowAll(ws[1..], rest);
      assert Show(ws[0])[0] == '(';
      assert SenseAll(ws)[1..] == SenseAll(ws[1..]);
    }
  }

  /** Filter compilation: any spelling of any tree compiles to exactly the BER
      encoding of the tree. */
  lemma CompileShown(w: Spelling)
    requires Legible(w)
    ensures ParseFilter(Show(w)) == Some(Encoding(Sense(w)))
  {
    var s := Show(w);
    assert s[0] == '(' && s[|s| - 1] == ')';
    TrimSpaceKeeps(s);
    assert s + "" == s;
    ParseShow(w, "");
  }

  lemma {:induction false} SpelledOut(f: Filter)
    requires Plain(f)
    ensures Legible(Spell(f)) && Sense(Spell(f)) == f
    decreases f
  {
    match f
    case Equal(_, v) =>
      EscapedIsInert(v);
      UnescapeEscape(v);
    case Present(_) =>
    case And(fs) =>
      forall i | 0 <= i < |fs| ensures Legible(SpellAll(fs)[i]) && Sense(SpellAll(fs)[i]) == fs[i] {
        SpelledOut(fs[i]);
      }
      assert SenseAll(SpellAll(fs)) == fs;
    case Or(fs) =>
      forall i | 0 <= i < |fs| ensures Legible(SpellAll(fs)[i]) && Sense(SpellAll(fs)[i]) == fs[i] {
        SpelledOut(fs[i]);
      }
      assert SenseAll(SpellAll(fs)) == fs;
  }

  /** In particular the printed and escaped text does. */
  lemma CompilePrinted(f: Filter)
    requires Plain(f)
    ensures ParseFilter(Print(f)) == Some(Encoding(f))
  {
    SpelledOut(f);
    CompileShown(Spell(f));
  }

  // ---- Encodings tell equality from presence ---------------------------------------------------

  /** g is f with any number of equalities turned into tests of presence. */
  predicate Blurs(f: Filter, g: Filter)
    decreases f
  {
    match f
    case And(fs) => g.And? && |g.fs| == |fs| && forall i | 0 <= i < |fs| :: Blurs(fs[i], g.fs[i])
    case Or(fs) => g.Or? && |g.fs| == |fs| && forall i | 0 <= i < |fs| :: Blurs(fs[i], g.fs[i])
    case Equal(a, _) => g == f || g == Present(a)
    case Present(_) => g == f
  }

  function TagOf(f: Filter): char {
    match f
    case And(_) => TAG_AND
    case Or(_) => TAG_OR
    case Equal(_, _) => TAG_EQUAL
    case Present(_) => TAG_PRESENT
  }

  lemma EncodingHead(f: Filter, rest: string)
    ensures Encoding(f) != "" && (Encoding(f) + rest)[0] == TagOf(f)
  {
  }

  /** Such a filter has another encoding, unless it is the same filter; what comes
      after the two encodings does not matter. */
  lemma {:induction false} BlurShows(f: Filter, g: Filter, x: string, y: string)
    requires Blurs(f, g) && Encoding(f) + x == Encoding(g) + y
    ensures f == g
    decreases f
  {
    EncodingHead(f, x);
    EncodingHead(g, y);
    if f.And? || f.Or? {
      SameElement(TagOf(f), EncodingAll(f.fs), x, TagOf(g), EncodingAll(g.fs), y);
      BlurAllShows(f.fs, g.fs, x, y);
    }
  }

  lemma {:induction false} BlurAllShows(fs: seq<Filter>, gs: seq<Filter>, x: string, y: string)
    requires |fs| == |gs| && forall i | 0 <= i < |fs| :: Blurs(fs[i], gs[i])
    requires EncodingAll(fs) + x == EncodingAll(gs) + y
    ensures fs == gs
    decreases fs
  {
    if fs != [] {
      var x', y' := EncodingAll(fs[1..]) + x, EncodingAll(gs[1..]) + y;
      assert EncodingAll(fs) + x == Encoding(fs[0]) + x' && EncodingAll(gs) + y == Encoding(gs[0]) + y';
      BlurShows(fs[0], gs[0], x', y');
      var e := Encoding(fs[0]);
      assert (e + x')[|e|..] == x' && (e + y')[|e|..] == y';
      BlurAllShows(fs[1..], gs[1..], x, y);
      assert fs == [fs[0]] + fs[1..] && gs == [gs[0]] + gs[1..];
    }
  }
}
