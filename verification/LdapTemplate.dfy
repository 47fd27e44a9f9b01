/** Rendering the configured user filter with a username: whatever the username
    contains, only the assertion values at the placeholders change. */
module LdapTemplate {
  import opened Text
  import opened LdapFilter

  // ---- strings.ReplaceAll --------------------------------------------------------------------

  /** Leftmost, non-overlapping, never looking at what was put in. */
  function ReplaceAll(s: string, m: string, r: string): string
    requires m != ""
    decreases |s|
  {
    if |s| < |m| then s
    else if s[..|m|] == m then r + ReplaceAll(s[|m|..], m, r)
    else [s[0]] + ReplaceAll(s[1..], m, r)
  }

  /** A placeholder whose first and last characters occur nowhere else in it,
      and which uses none of the filter's own punctuation. */
  predicate Marker(m: string) {
    && |m| >= 2 && m[0] !in m[1..] && m[|m| - 1] !in m[..|m| - 1]
    && '(' !in m && ')' !in m && '=' !in m && '&' !in m && '|' !in m && '*' !in m
  }

  /** No occurrence of m can lie across the boundary between a and b. */
  predicate Apart(a: string, b: string, m: string)
    requires m != ""
  {
    (b != "" ==> b[0] !in m[1..]) || (a != "" ==> a[|a| - 1] !in m[..|m| - 1])
  }

  lemma NoStraddle(a: string, b: string, m: string)
    requires m != "" && Apart(a, b, m) && 0 < |a| < |m| <= |a + b|
    ensures (a + b)[..|m|] != m
  {
    var s := (a + b)[..|m|];
    assert s[|a|] == b[0] && s[|a| - 1] == a[|a| - 1];
    assert m[1..][|a| - 1] == m[|a|] && m[..|m| - 1][|a| - 1] == m[|a| - 1];
  }

  /** What does not start with m still does not with more behind it. */
  lemma NoMarkerAhead(a: string, b: string, m: string)
    requires m != "" && a != "" && Apart(a, b, m) && !(|a| >= |m| && a[..|m|] == m)
    ensures |a + b| >= |m| ==> (a + b)[..|m|] != m
  {
    if |a| < |m| <= |a + b| {
      NoStraddle(a, b, m);
    }
    if |a| >= |m| {
      assert (a + b)[..|m|] == a[..|m|];
    }
  }

  /** An occurrence is replaced. */
  lemma ReplaceFirst(s: string, m: string, r: string)
    requires m != "" && |s| >= |m| && s[..|m|] == m
    ensures ReplaceAll(s, m, r) == r + ReplaceAll(s[|m|..], m, r)
  {
  }

  lemma Associates(a: string, b: string, c: string)
    ensures a + (b + c) == (a + b) + c
  {
  }

  lemma {:induction false} ReplaceConcat(a: string, b: string, m: string, r: string)
    requires m != "" && Apart(a, b, m)
    ensures ReplaceAll(a + b, m, r) == ReplaceAll(a, m, r) + ReplaceAll(b, m, r)
    decreases |a|
  {
    var rb := ReplaceAll(b, m, r);
    if a == "" {
      assert a + b == b;
    } else if |a| >= |m| && a[..|m|] == m {
      var tail := a[|m|..];
      assert (a + b)[..|m|] == m && (a + b)[|m|..] == tail + b;
      ReplaceConcat(tail, b, m, r);
      ReplaceFirst(a, m, r);
      ReplaceFirst(a + b, m, r);
      Associates(r, ReplaceAll(tail, m, r), rb);
    } else {
      var tail := a[1..];
      NoMarkerAhead(a, b, m);
      assert (a + b)[1..] == tail + b;
      ReplaceConcat(tail, b, m, r);
      ReplaceHead(a, m, r);
      ReplaceHead(a + b, m, r);
      Associates([a[0]], ReplaceAll(tail, m, r), rb);
    }
  }

  /** A character that starts no occurrence is kept. */
  lemma ReplaceHead(s: string, m: string, r: string)
    requires m != "" && s != "" && (|s| >= |m| ==> s[..|m|] != m)
    ensures ReplaceAll(s, m, r) == [s[0]] + ReplaceAll(s[1..], m, r)
  {
  }

  predicate Free(s: string, m: string) {
    forall i | 0 <= i <= |s| :: !OccursAt(s, m, i)
  }

  lemma {:induction false} ReplaceFree(s: string, m: string, r: string)
    requires m != "" && Free(s, m)
    ensures ReplaceAll(s, m, r) == s
  {
    if |s| >= |m| {
      assert !OccursAt(s, m, 0);
      forall i | 0 <= i <= |s[1..]| ensures !OccursAt(s[1..], m, i) {
        assert !OccursAt(s, m, i + 1);
        if i + |m| <= |s[1..]| {
          assert s[1..][i..i + |m|] == s[i + 1..i + 1 + |m|];
        }
      }
      ReplaceFree(s[1..], m, r);
      assert s == [s[0]] + s[1..];
    }
  }

  lemma FreeByLetter(s: string, m: string, c: char)
    requires c in m && c !in s
    ensures Free(s, m)
  {
  }

  lemma ReplaceMarker(m: string, r: string)
    requires m != ""
    ensures ReplaceAll(m, m, r) == r
  {
  }

  // ---- Templates -----------------------------------------------------------------------------

  /** A filter whose values are literal filter texts with a placeholder between
      each two of them. */
  datatype Template =
    | TAnd(ts: seq<Template>)
    | TOr(ts: seq<Template>)
    | TEqual(attr: string, lits: seq<string>)
    | TPresent(attr: string)

  /** The literals with text between them. */
  function Weave(lits: seq<string>, text: string): string {
    if lits == [] then ""
    else if |lits| == 1 then lits[0]
    else lits[0] + (text + Weave(lits[1..], text))
  }

  /** What a literal says. */
  function Meaning(lit: string): string {
    if Unescape(lit).Some? then Unescape(lit).value else ""
  }

  function FillValue(lits: seq<string>, username: string): string {
    if lits == [] then ""
    else if |lits| == 1 then Meaning(lits[0])
    else Meaning(lits[0]) + (username + FillValue(lits[1..], username))
  }

  /** The configured text. */
  function Source(t: Template, m: string): string
    decreases t
  {
    match t
    case TAnd(ts) => "(&" + (SourceAll(ts, m) + ")")
    case TOr(ts) => "(|" + (SourceAll(ts, m) + ")")
    case TEqual(a, lits) => "(" + (a + ("=" + (Weave(lits, m) + ")")))
    case TPresent(a) => "(" + (a + ("=" + ("*" + ")")))
  }

  function SourceAll(ts: seq<Template>, m: string): string
    decreases ts
  {
    if ts == [] then "" else Source(ts[0], m) + SourceAll(ts[1..], m)
  }

  /** The spelling with text at the placeholders. */
  function Spelled(t: Template, text: string): Spelling
    decreases t
  {
    match t
    case TAnd(ts) => SAnd(SpelledAll(ts, text))
    case TOr(ts) => SOr(SpelledAll(ts, text))
    case TEqual(a, lits) => SEqual(a, Weave(lits, text))
    case TPresent(a) => SPresent(a)
  }

  function SpelledAll(ts: seq<Template>, text: string): (ws: seq<Spelling>)
    ensures |ws| == |ts| && forall i | 0 <= i < |ts| :: ws[i] == Spelled(ts[i], text)
    decreases ts
  {
    if ts == [] then [] else [Spelled(ts[0], text)] + SpelledAll(ts[1..], text)
  }

  /** The filter meant for a username: its bytes at the placeholders. */
  function Fill(t: Template, username: string): Filter
    decreases t
  {
    match t
    case TAnd(ts) => And(FillAll(ts, username))
    case TOr(ts) => Or(FillAll(ts, username))
    case TEqual(a, lits) => Equal(a, FillValue(lits, username))
    case TPresent(a) => Present(a)
  }

  function FillAll(ts: seq<Template>, username: string): (fs: seq<Filter>)
    ensures |fs| == |ts| && forall i | 0 <= i < |ts| :: fs[i] == Fill(ts[i], username)
    decreases ts
  {
    if ts == [] then [] else [Fill(ts[0], username)] + FillAll(ts[1..], username)
  }

  /** No escape is left open at the end of s. */
  predicate Complete(s: string) {
    s == "" ||
    if s[0] != '\\' then Complete(s[1..])
    else |s| >= 3 && HexDigit(s[1]).Some? && HexDigit(s[2]).Some? && Complete(s[3..])
  }

  /** Literals that a placeholder does not run into. */
  predicate TidyValue(lits: seq<string>, m: string) {
    && lits != [] && lits != ["*"]
    && (forall i | 0 <= i < |lits| :: Free(lits[i], m) && ')' !in lits[i])
    && (forall i | 0 <= i < |lits| - 1 :: Complete(lits[i]))
    && Unescape(lits[|lits| - 1]).Some?
  }

  /** The placeholder occurs only where it is meant. */
  predicate Tidy(t: Template, m: string)
    decreases t
  {
    match t
    case TAnd(ts) => forall i | 0 <= i < |ts| :: Tidy(ts[i], m)
    case TOr(ts) => forall i | 0 <= i < |ts| :: Tidy(ts[i], m)
    case TEqual(a, lits) => PlainAttr(a) && Free(a, m) && TidyValue(lits, m)
    case TPresent(a) => PlainAttr(a) && Free(a, m)
  }

  /** The spelling as the compiler takes it: a value that comes out as a lone star
      is a test of presence. */
  function Seen(t: Template, text: string): Spelling
    decreases t
  {
    match t
    case TAnd(ts) => SAnd(SeenAll(ts, text))
    case TOr(ts) => SOr(SeenAll(ts, text))
    case TEqual(a, lits) => if Weave(lits, text) == "*" then SPresent(a) else SEqual(a, Weave(lits, text))
    case TPresent(a) => SPresent(a)
  }

  function SeenAll(ts: seq<Template>, text: string): (ws: seq<Spelling>)
    ensures |ws| == |ts| && forall i | 0 <= i < |ts| :: ws[i] == Seen(ts[i], text)
    decreases ts
  {
    if ts == [] then [] else [Seen(ts[0], text)] + SeenAll(ts[1..], text)
  }

  /** Some value is a lone star when nothing is put in. */
  predicate LoneStar(t: Template)
    decreases t
  {
    match t
    case TAnd(ts) => exists i | 0 <= i < |ts| :: LoneStar(ts[i])
    case TOr(ts) => exists i | 0 <= i < |ts| :: LoneStar(ts[i])
    case TEqual(_, lits) => Weave(lits, "") == "*"
    case TPresent(_) => false
  }

  // ---- What the filled text says ---------------------------------------------------------------

  lemma {:induction false} UnescapeConcat(a: string, b: string)
    requires Complete(a)
    ensures Unescape(a).Some? && Unescape(a + b) == With(Unescape(a).value, Unescape(b))
  {
    if a == "" {
      assert a + b == b;
      WithNothing(Unescape(b));
    } else if a[0] != '\\' {
      assert (a + b)[1..] == a[1..] + b;
      UnescapeConcat(a[1..], b);
      WithPrefix(a[0], Unescape(a[1..]).value, Unescape(b));
    } else {
      assert (a + b)[3..] == a[3..] + b && (a + b)[1] == a[1] && (a + b)[2] == a[2];
      UnescapeConcat(a[3..], b);
      var c := (HexDigit(a[1]).value * 16 + HexDigit(a[2]).value) as char;
      WithPrefix(c, Unescape(a[3..]).value, Unescape(b));
    }
  }

  lemma WithPrefix(c: char, out: string, r: Option<string>)
    ensures Prefixed(c, With(out, r)) == With([c] + out, r)
  {
    if r.Some? {
      assert [c] + (out + r.value) == [c] + out + r.value;
    }
  }

  lemma {:induction false} EscapeComplete(s: string)
    ensures Complete(Escape(s))
  {
    if s != "" {
      EscapeComplete(s[1..]);
      CompleteOne(s[0], Escape(s[1..]));
    }
  }

  lemma CompleteOne(c: char, rest: string)
    requires Complete(rest)
    ensures Complete(EscapeChar(c) + rest)
  {
    var s := EscapeChar(c) + rest;
    if |EscapeChar(c)| == 3 {
      assert s[3..] == rest;
    } else {
      assert s[1..] == rest;
    }
  }

  /** The woven text unescapes to the woven value. */
  lemma {:induction false} WeaveIsValue(lits: seq<string>, username: string)
    requires lits != [] && (forall i | 0 <= i < |lits| - 1 :: Complete(lits[i]))
    requires Unescape(lits[|lits| - 1]).Some?
    ensures Unescape(Weave(lits, Escape(username))) == Some(FillValue(lits, username))
  {
    if |lits| > 1 {
      var rest := Weave(lits[1..], Escape(username));
      WeaveIsValue(lits[1..], username);
      EscapeComplete(username);
      UnescapeEscape(username);
      UnescapeConcat(Escape(username), rest);
      UnescapeConcat(lits[0], Escape(username) + rest);
    }
  }

  lemma {:induction false} WeaveStaysInside(lits: seq<string>, text: string, c: char)
    requires (forall i | 0 <= i < |lits| :: c !in lits[i]) && c !in text
    ensures c !in Weave(lits, text)
  {
    if |lits| > 1 {
      WeaveStaysInside(lits[1..], text, c);
    }
  }

  /** Only with an empty username can a value come out as a lone star. */
  lemma WeaveIsStar(lits: seq<string>, username: string)
    requires lits != [] && lits != ["*"]
    ensures Weave(lits, Escape(username)) == "*" <==> username == "" && Weave(lits, "") == "*"
  {
    var text := Escape(username);
    if |lits| == 1 {
      assert lits == [lits[0]];
    } else if username != "" {
      EscapedIsInert(username);
      assert text != "";
      var w := lits[0] + (text + Weave(lits[1..], text));
      assert w[|lits[0]|] == text[0];
    }
  }

  lemma ValueSeen(a: string, lits: seq<string>, m: string, username: string)
    requires PlainAttr(a) && TidyValue(lits, m)
    ensures var w := Seen(TEqual(a, lits), Escape(username));
            && Legible(w)
            && Sense(w) == if username == "" && Weave(lits, "") == "*" then Present(a)
                           else Equal(a, FillValue(lits, username))
  {
    EscapedIsInert(username);
    WeaveIsValue(lits, username);
    WeaveStaysInside(lits, Escape(username), ')');
    WeaveIsStar(lits, username);
  }

  /** The compiler sees the filter meant, but for lone stars. */
  predicate SeenAsMeant(t: Template, username: string)
    requires Legible(Seen(t, Escape(username)))
  {
    var f, g := Fill(t, username), Sense(Seen(t, Escape(username)));
    Blurs(f, g) && (g == f <==> username != "" || !LoneStar(t))
  }

  lemma {:induction false} SeenSense(t: Template, m: string, username: string)
    requires Tidy(t, m)
    ensures Legible(Seen(t, Escape(username))) && SeenAsMeant(t, username)
    decreases t
  {
    match t
    case TEqual(a, lits) => ValueSeen(a, lits, m, username);
    case TPresent(_) =>
    case TAnd(ts) => SeenAllSense(ts, m, username);
    case TOr(ts) => SeenAllSense(ts, m, username);
  }

  lemma {:induction false} SeenAllSense(ts: seq<Template>, m: string, username: string)
    requires forall i | 0 <= i < |ts| :: Tidy(ts[i], m)
    ensures var ws := SeenAll(ts, Escape(username));
            && (forall i | 0 <= i < |ws| :: Legible(ws[i]))
            && (forall i | 0 <= i < |ts| :: Blurs(FillAll(ts, username)[i], SenseAll(ws)[i]))
            && (SenseAll(ws) == FillAll(ts, username) <==>
                  username != "" || forall i | 0 <= i < |ts| :: !LoneStar(ts[i]))
    decreases ts
  {
    var ws := SeenAll(ts, Escape(username));
    forall i | 0 <= i < |ts| ensures Legible(ws[i]) && SeenAsMeant(ts[i], username) {
      SeenSense(ts[i], m, username);
    }
    var fs, gs := FillAll(ts, username), SenseAll(ws);
    assert forall i | 0 <= i < |ts| :: gs[i] == fs[i] <==> username != "" || !LoneStar(ts[i]);
    if i :| 0 <= i < |ts| && gs[i] != fs[i] {
      assert gs != fs;
    }
  }

  /** It makes no difference to the text. */
  lemma {:induction false} SeenShows(t: Template, text: string)
    ensures Show(Seen(t, text)) == Show(Spelled(t, text))
    decreases t, 0
  {
    if t.TAnd? || t.TOr? {
      SeenAllShows(t.ts, text);
    }
  }

  lemma {:induction false} SeenAllShows(ts: seq<Template>, text: string)
    ensures ShowAll(SeenAll(ts, text)) == ShowAll(SpelledAll(ts, text))
    decreases ts, 1
  {
    if ts != [] {
      SeenShows(ts[0], text);
      SeenAllShows(ts[1..], text);
      assert SeenAll(ts, text)[1..] == SeenAll(ts[1..], text);
      assert SpelledAll(ts, text)[1..] == SpelledAll(ts[1..], text);
    }
  }

  // ---- Rendering -------------------------------------------------------------------------------

  lemma {:induction false} ReplaceWeave(lits: seq<string>, m: string, r: string)
    requires Marker(m) && lits != [] && forall i | 0 <= i < |lits| :: Free(lits[i], m)
    ensures ReplaceAll(Weave(lits, m), m, r) == Weave(lits, r)
  {
    ReplaceFree(lits[0], m, r);
    if |lits| > 1 {
      var rest := Weave(lits[1..], m);
      ReplaceWeave(lits[1..], m, r);
      ReplaceMarker(m, r);
      ReplaceConcat(m, rest, m, r);
      assert (m + rest)[0] == m[0];
      ReplaceConcat(lits[0], m + rest, m, r);
    }
  }

  /** Punctuation is kept and separates. */
  lemma ReplacePunctuation(p: string, rest: string, m: string, r: string)
    requires Marker(m) && p != "" && (forall i | 0 <= i < |p| :: p[i] !in m)
    ensures ReplaceAll(p + rest, m, r) == p + ReplaceAll(rest, m, r)
    ensures ReplaceAll(rest + p, m, r) == ReplaceAll(rest, m, r) + p
  {
    assert m[0] in m && m[0] !in p;
    FreeByLetter(p, m, m[0]);
    ReplaceFree(p, m, r);
    assert p[|p| - 1] !in m && p[0] !in m;
    ReplaceConcat(p, rest, m, r);
    ReplaceConcat(rest, p, m, r);
  }

  lemma ReplaceItem(a: string, value: string, m: string, r: string)
    requires Marker(m) && Free(a, m)
    ensures ReplaceAll("(" + (a + ("=" + (value + ")"))), m, r) == "(" + (a + ("=" + (ReplaceAll(value, m, r) + ")")))
  {
    ReplacePunctuation(")", value, m, r);
    ReplacePunctuation("=", value + ")", m, r);
    ReplaceFree(a, m, r);
    ReplaceConcat(a, "=" + (value + ")"), m, r);
    ReplacePunctuation("(", a + ("=" + (value + ")")), m, r);
  }

  /** Rendering changes the text at the placeholders and nothing else, whatever
      is put in. */
  lemma {:induction false} RenderTemplate(t: Template, m: string, r: string)
    requires Marker(m) && Tidy(t, m)
    ensures ReplaceAll(Source(t, m), m, r) == Show(Spelled(t, r))
    decreases t
  {
    match t
    case TAnd(ts) => RenderGroup(ts, "(&", m, r);
    case TOr(ts) => RenderGroup(ts, "(|", m, r);
    case TEqual(a, lits) =>
      ReplaceItem(a, Weave(lits, m), m, r);
      ReplaceWeave(lits, m, r);
      Regroup(a, Weave(lits, r));
    case TPresent(a) =>
      FreeByLetter("*", m, m[0]);
      ReplaceFree("*", m, r);
      ReplaceItem(a, "*", m, r);
      Regroup(a, "*");
  }

  lemma Regroup(a: string, value: string)
    ensures "(" + (a + ("=" + (value + ")"))) == "(" + a + "=" + value + ")"
  {
  }

  lemma {:induction false} RenderGroup(ts: seq<Template>, open: string, m: string, r: string)
    requires Marker(m) && (forall i | 0 <= i < |ts| :: Tidy(ts[i], m)) && open in {"(&", "(|"}
    ensures ReplaceAll(open + (SourceAll(ts, m) + ")"), m, r) == open + ShowAll(SpelledAll(ts, r)) + ")"
    decreases ts, 1
  {
    var body := SourceAll(ts, m);
    RenderAll(ts, m, r);
    ReplacePunctuation(")", body, m, r);
    ReplacePunctuation(open, body + ")", m, r);
  }

  lemma {:induction false} RenderAll(ts: seq<Template>, m: string, r: string)
    requires Marker(m) && forall i | 0 <= i < |ts| :: Tidy(ts[i], m)
    ensures ReplaceAll(SourceAll(ts, m), m, r) == ShowAll(SpelledAll(ts, r))
    decreases ts, 0
  {
    if ts != [] {
      var rest := SourceAll(ts[1..], m);
      RenderTemplate(ts[0], m, r);
      RenderAll(ts[1..], m, r);
      if ts[1..] != [] {
        assert rest[0] == Source(ts[1], m)[0] == '(';
      }
      ReplaceConcat(Source(ts[0], m), rest, m, r);
      assert SpelledAll(ts, r)[1..] == SpelledAll(ts[1..], r);
    }
  }

  /** renderedFilter. */
  function Rendered(filter: string, usernameAttribute: string, username: string): string {
    var f, e := TrimSpace(filter), Escape(username);
    if !Free(f, "%s") then ReplaceAll(f, "%s", e)
    else if !Free(f, "{username}") then ReplaceAll(f, "{username}", e)
    else "(" + usernameAttribute + "=" + e + ")"
  }

  lemma ShortMarker()
    ensures Marker("%s")
  {
    assert "%s"[1..] == "s" && "%s"[..1] == "%";
  }

  lemma LongMarker()
    ensures Marker("{username}")
  {
    var m := "{username}";
    assert m[1..] == "username}";
    assert '{' !in "username}";
    assert m[..9] == "{username";
    assert '}' !in "{username";
  }

  lemma SourceIsTrimmed(t: Template, m: string)
    ensures TrimSpace(Source(t, m)) == Source(t, m)
  {
  }

  /** Rendering a template with a username, whatever bytes it holds, and compiling
      the result gives the encoding of the template with exactly those bytes as
      assertion value at the placeholders, if and only if there is a username or
      no value is a lone star without one. */
  lemma RenderedCompiles(t: Template, m: string, attr: string, username: string)
    requires m == "%s" || (m == "{username}" && Free(Source(t, m), "%s"))
    requires Tidy(t, m) && !Free(Source(t, m), m)
    ensures ParseFilter(Rendered(Source(t, m), attr, username)) == Some(Encoding(Fill(t, username)))
            <==> username != "" || !LoneStar(t)
  {
    var w, f := Seen(t, Escape(username)), Fill(t, username);
    RenderedIsSeen(t, m, attr, username);
    SeenSense(t, m, username);
    CompileShown(w);
    if Encoding(Sense(w)) == Encoding(f) {
      assert Encoding(f) + "" == Encoding(Sense(w)) + "";
      BlurShows(f, Sense(w), "", "");
    }
  }

  /** What Authenticate looks up with: the trimmed username, if there is one. */
  function LookupName(username: string): Option<string> {
    if TrimSpace(username) == "" then None else Some(TrimSpace(username))
  }

  /** So every username that Authenticate lets through is compared as it should be. */
  lemma AuthenticatedCompiles(t: Template, m: string, attr: string, username: string)
    requires m == "%s" || (m == "{username}" && Free(Source(t, m), "%s"))
    requires Tidy(t, m) && !Free(Source(t, m), m)
    ensures LookupName(username).Some? ==>
              var u := LookupName(username).value;
              ParseFilter(Rendered(Source(t, m), attr, u)) == Some(Encoding(Fill(t, u)))
  {
    RenderedCompiles(t, m, attr, TrimSpace(username));
  }

  lemma RenderedIsSeen(t: Template, m: string, attr: string, username: string)
    requires m == "%s" || (m == "{username}" && Free(Source(t, m), "%s"))
    requires Tidy(t, m) && !Free(Source(t, m), m)
    ensures Rendered(Source(t, m), attr, username) == Show(Seen(t, Escape(username)))
  {
    ShortMarker();
    LongMarker();
    SourceIsTrimmed(t, m);
    RenderTemplate(t, m, Escape(username));
    SeenShows(t, Escape(username));
  }

  /** The shortest lone star: with nothing put in, the equality becomes a test of
      presence. */
  lemma EmptyUsernameMayMeanPresence(a: string)
    requires PlainAttr(a)
    ensures ParseFilter(Show(Spelled(TEqual(a, ["*", ""]), Escape("")))) == Some(Encoding(Present(a)))
  {
    assert ["*", ""][1..] == [""];
    assert Weave(["*", ""], "") == "*" + ("" + "") == "*";
    var w := SPresent(a);
    assert Show(w) == Show(Spelled(TEqual(a, ["*", ""]), ""));
    CompileShown(w);
  }

  /** Without a placeholder the username attribute alone is compared. */
  lemma DefaultCompiles(filter: string, attr: string, username: string)
    requires Free(TrimSpace(filter), "%s") && Free(TrimSpace(filter), "{username}") && PlainAttr(attr)
    ensures ParseFilter(Rendered(filter, attr, username)) == Some(Encoding(Equal(attr, username)))
  {
    CompilePrinted(Equal(attr, username));
  }
}
