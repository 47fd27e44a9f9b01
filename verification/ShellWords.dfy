/** The exec command of an scp client: shell words and the scp request. */
module ShellWords {
  import opened Text

  // ---- Splitting -------------------------------------------------------------------

  datatype Quote = Plain | Single | Double

  /** The loop state of splitShellWords. */
  datatype Lexer = Lexer(words: seq<string>, cur: string, inWord: bool, quote: Quote)

  const START: Lexer := Lexer([], "", false, Plain)

  predicate Blank(c: char) { c == ' ' || c == '\t' || c == '\n' }

  /** Characters that a backslash escapes inside double quotes. */
  predicate Escapable(c: char) { c == '$' || c == '`' || c == '"' || c == '\\' || c == '\n' }

  /** One loop iteration on non-empty input: the state after it and how many
      characters it consumed. */
  function Turn(s: string, l: Lexer): (r: (Lexer, nat))
    requires s != ""
    ensures 1 <= r.1 <= |s|
  {
    var c := s[0];
    match l.quote
    case Single =>
      if c == '\'' then (l.(quote := Plain), 1) else (l.(cur := l.cur + [c]), 1)
    case Double =>
      if c == '"' then (l.(quote := Plain), 1)
      else if c == '\\' && |s| > 1 && Escapable(s[1]) then (l.(cur := l.cur + [s[1]]), 2)
      else (l.(cur := l.cur + [c]), 1)
    case Plain =>
      if c == '\'' then (l.(quote := Single, inWord := true), 1)
      else if c == '"' then (l.(quote := Double, inWord := true), 1)
      else if c == '\\' then
        if |s| > 1 then (l.(cur := l.cur + [s[1]], inWord := true), 2) else (l.(inWord := true), 1)
      else if Blank(c) then
        if l.inWord then (l.(words := l.words + [l.cur], cur := "", inWord := false), 1) else (l, 1)
      else (l.(cur := l.cur + [c], inWord := true), 1)
  }

  function Lex(s: string, l: Lexer): Lexer
    decreases |s|
  {
    if s == "" then l else var (l', n) := Turn(s, l); Lex(s[n..], l')
  }

  function Finish(l: Lexer): Option<seq<string>> {
    if l.quote != Plain then None
    else if l.inWord then Some(l.words + [l.cur]) else Some(l.words)
  }

  /** splitShellWords: None for an unterminated quote. */
  method SplitShellWords(s: string) returns (words: Option<seq<string>>)
    ensures words == Finish(Lex(s, START))
  {
    var l, i := START, 0;
    assert s[0..] == s;
    while i < |s|
      invariant 0 <= i <= |s|
      invariant Lex(s[i..], l) == Lex(s, START)
    {
      var (l', n) := Turn(s[i..], l);
      assert s[i..][n..] == s[i + n..];
      l, i := l', i + n;
    }
    return Finish(l);
  }

  // ---- Quoting ----------------------------------------------------------------------

  /** The inside of a single-quoted word: a quote is closed, escaped, reopened. */
  function QuoteBody(w: string): string {
    if w == "" then "" else QuoteChar(w[0]) + QuoteBody(w[1..])
  }

  function QuoteChar(c: char): string { if c == '\'' then "'\\''" else [c] }

  function QuoteWord(w: string): string { "'" + QuoteBody(w) + "'" }

  function QuoteAll(ws: seq<string>): string {
    if ws == [] then ""
    else if |ws| == 1 then QuoteWord(ws[0])
    else QuoteWord(ws[0]) + " " + QuoteAll(ws[1..])
  }

  lemma TurnLex(s: string, c: char, rest: string, l: Lexer)
    requires s == [c] + rest && Turn(s, l).1 == 1
    ensures Lex(s, l) == Lex(rest, Turn(s, l).0)
  {
  }

  lemma LexClose(rest: string, l: Lexer)
    requires l.quote == Single
    ensures Lex("'" + rest, l) == Lex(rest, l.(quote := Plain))
  {
  }

  lemma LexEscape(rest: string, l: Lexer)
    requires l.quote == Plain && l.inWord
    ensures Lex("\\'" + rest, l) == Lex(rest, l.(cur := l.cur + "'"))
  {
  }

  lemma LexReopen(rest: string, l: Lexer)
    requires l.quote == Plain && l.inWord
    ensures Lex("'" + rest, l) == Lex(rest, l.(quote := Single))
  {
  }

  lemma LexEscapedQuote(rest: string, l: Lexer)
    requires l.quote == Single && l.inWord
    ensures Lex("'\\''" + rest, l) == Lex(rest, l.(cur := l.cur + "'"))
  {
    var s3 := "'" + rest;
    var s2 := "\\'" + s3;
    assert "'\\''" + rest == "'" + s2;
    LexClose(s2, l);
    LexEscape(s3, l.(quote := Plain));
    LexReopen(rest, l.(quote := Plain, cur := l.cur + "'"));
  }

  lemma LexQuoteChar(c: char, rest: string, l: Lexer)
    requires l.quote == Single && l.inWord
    ensures Lex(QuoteChar(c) + rest, l) == Lex(rest, l.(cur := l.cur + [c]))
  {
    if c == '\'' {
      LexEscapedQuote(rest, l);
    } else {
      TurnLex([c] + rest, c, rest, l);
    }
  }

  /** Reading text takes the lexer from l to m, whatever follows. */
  ghost predicate Reads(text: string, l: Lexer, m: Lexer) {
    forall rest: string :: Lex(text + rest, l) == Lex(rest, m)
  }

  /** The same for any function in place of Lex. */
  ghost predicate ReadsBy(lex: (string, Lexer) -> Lexer, text: string, l: Lexer, m: Lexer) {
    forall rest: string :: lex(text + rest, l) == lex(rest, m)
  }

  lemma ReadsByBoth(lex: (string, Lexer) -> Lexer, a: string, b: string, l: Lexer, m: Lexer, n: Lexer)
    requires ReadsBy(lex, a, l, m) && ReadsBy(lex, b, m, n)
    ensures ReadsBy(lex, a + b, l, n)
  {
    forall rest: string ensures lex(a + b + rest, l) == lex(rest, n) {
      var middle := b + rest;
      assert a + b + rest == a + middle;
      assert lex(a + middle, l) == lex(middle, m) && lex(middle, m) == lex(rest, n);
    }
  }

  lemma ReadsConcat(a: string, b: string, l: Lexer, m: Lexer, n: Lexer)
    requires Reads(a, l, m) && Reads(b, m, n)
    ensures Reads(a + b, l, n)
  {
    var lex := (s: string, k: Lexer) => Lex(s, k);
    ReadsByBoth(lex, a, b, l, m, n);
    assert ReadsBy(lex, a + b, l, n);
    forall rest: string ensures Lex(a + b + rest, l) == Lex(rest, n) {
      assert lex(a + b + rest, l) == lex(rest, n);
    }
  }

  lemma ReadsQuoteChar(c: char, l: Lexer)
    requires l.quote == Single && l.inWord
    ensures Reads(QuoteChar(c), l, l.(cur := l.cur + [c]))
  {
    forall rest: string ensures Lex(QuoteChar(c) + rest, l) == Lex(rest, l.(cur := l.cur + [c])) {
      LexQuoteChar(c, rest, l);
    }
  }

  lemma ReadsNothing(l: Lexer)
    ensures Reads("", l, l)
  {
    forall rest: string ensures Lex("" + rest, l) == Lex(rest, l) {
      assert "" + rest == rest;
    }
  }

  lemma {:induction false} ReadsQuoteBody(w: string, l: Lexer)
    requires l.quote == Single && l.inWord
    ensures Reads(QuoteBody(w), l, l.(cur := l.cur + w))
  {
    if w == "" {
      ReadsNothing(l);
      assert l.cur + w == l.cur;
    } else {
      var l1 := l.(cur := l.cur + [w[0]]);
      ReadsQuoteChar(w[0], l);
      ReadsQuoteBody(w[1..], l1);
      assert l1.cur + w[1..] == l.cur + w;
      ReadsConcat(QuoteChar(w[0]), QuoteBody(w[1..]), l, l1, l.(cur := l.cur + w));
    }
  }

  lemma LexQuoteBody(w: string, rest: string, l: Lexer)
    requires l.quote == Single && l.inWord
    ensures Lex(QuoteBody(w) + "'" + rest, l) == Lex(rest, l.(cur := l.cur + w, quote := Plain))
  {
    ReadsQuoteBody(w, l);
    assert QuoteBody(w) + "'" + rest == QuoteBody(w) + ("'" + rest);
    LexClose(rest, l.(cur := l.cur + w));
  }

  lemma LexQuoteWord(w: string, rest: string, l: Lexer)
    requires l.quote == Plain
    ensures Lex(QuoteWord(w) + rest, l) == Lex(rest, l.(cur := l.cur + w, inWord := true))
  {
    var tail := QuoteBody(w) + "'" + rest;
    assert QuoteWord(w) + rest == "'" + tail;
    TurnLex("'" + tail, '\'', tail, l);
    LexQuoteBody(w, rest, l.(quote := Single, inWord := true));
  }

  lemma LexSpace(rest: string, l: Lexer)
    requires l.quote == Plain && l.inWord
    ensures Lex(" " + rest, l) == Lex(rest, l.(words := l.words + [l.cur], cur := "", inWord := false))
  {
  }

  function Between(words: seq<string>): Lexer { Lexer(words, "", false, Plain) }

  lemma LastWord(w: string, words: seq<string>)
    ensures Finish(Lex(QuoteWord(w), Between(words))) == Some(words + [w])
  {
    LexQuoteWord(w, "", Between(words));
    assert QuoteWord(w) + "" == QuoteWord(w);
    assert "" + w == w;
  }

  lemma WordAndSpace(w: string, rest: string, words: seq<string>)
    ensures Lex(QuoteWord(w) + " " + rest, Between(words)) == Lex(rest, Between(words + [w]))
  {
    assert QuoteWord(w) + " " + rest == QuoteWord(w) + (" " + rest);
    LexQuoteWord(w, " " + rest, Between(words));
    assert "" + w == w;
    LexSpace(rest, Lexer(words, w, true, Plain));
  }

  lemma {:induction false} LexQuoteAll(ws: seq<string>, words: seq<string>)
    ensures Finish(Lex(QuoteAll(ws), Between(words))) == Some(words + ws)
    decreases |ws|
  {
    if ws == [] {
      assert words + ws == words;
    } else {
      var w, rest := ws[0], ws[1..];
      assert words + [w] + rest == words + ws;
      if rest == [] {
        assert ws == [w];
        LastWord(w, words);
      } else {
        WordAndSpace(w, QuoteAll(rest), words);
        LexQuoteAll(rest, words + [w]);
      }
    }
  }

  /** Shell words undo quoting, for any words at all, empty ones included. */
  lemma SplitUndoesQuoting(ws: seq<string>)
    ensures Finish(Lex(QuoteAll(ws), START)) == Some(ws)
  {
    LexQuoteAll(ws, []);
    assert [] + ws == ws;
  }

  // ---- The scp request -----------------------------------------------------------------

  datatype Mode = Source | Sink

  datatype Request = Request(mode: Mode, target: string, preserve: bool, recursive: bool)

  datatype Args = Args(mode: Option<Mode>, preserve: bool, recursive: bool, optionsDone: bool, targets: seq<string>)

  /** The argument loop of parseSCPExec. */
  function ReadArgs(args: seq<string>, a: Args): Args {
    if args == [] then a
    else
      var arg := args[0];
      ReadArgs(args[1..],
        if !a.optionsDone && arg == "--" then a.(optionsDone := true)
        else if !a.optionsDone && "-" <= arg then
          a.(mode := if 't' in arg then Some(Sink) else if 'f' in arg then Some(Source) else a.mode,
             preserve := a.preserve || 'p' in arg, recursive := a.recursive || 'r' in arg)
        else a.(targets := a.targets + [arg]))
  }

  /** parseSCPExec after word splitting; None for every error. */
  function ParseWords(words: seq<string>): Option<Request> {
    if words == [] || words[0] != "scp" then None
    else
      var a := ReadArgs(words[1..], Args(None, false, false, false, []));
      if a.mode.None? || |a.targets| > 1 then None
      else Some(Request(a.mode.value, if a.targets == [] then "." else a.targets[0], a.preserve, a.recursive))
  }

  function ParseExec(command: string): Option<Request> {
    match Finish(Lex(command, START))
    case None => None
    case Some(words) => ParseWords(words)
  }

  /** A word that needs no quoting. */
  predicate Bare(w: string) {
    forall i | 0 <= i < |w| :: !Blank(w[i]) && w[i] != '\'' && w[i] != '"' && w[i] != '\\'
  }

  lemma {:induction false} LexBare(w: string, rest: string, l: Lexer)
    requires Bare(w) && l.quote == Plain && (w != "" || l.inWord)
    ensures Lex(w + rest, l) == Lex(rest, l.(cur := l.cur + w, inWord := true))
  {
    if w == "" {
      assert w + rest == rest && l.cur + w == l.cur;
    } else {
      assert w + rest == [w[0]] + (w[1..] + rest);
      TurnLex(w + rest, w[0], w[1..] + rest, l);
      var l1 := l.(cur := l.cur + [w[0]], inWord := true);
      LexBare(w[1..], rest, l1);
      assert l1.cur + w[1..] == l.cur + w;
    }
  }

  lemma LexBareWord(w: string, rest: string, words: seq<string>)
    requires Bare(w) && w != ""
    ensures Lex(w + " " + rest, Between(words)) == Lex(rest, Between(words + [w]))
  {
    var l := Lexer(words, "", false, Plain);
    assert w + " " + rest == w + (" " + rest);
    LexBare(w, " " + rest, l);
    assert "" + w == w;
    LexSpace(rest, Lexer(words, w, true, Plain));
  }

  lemma WordsBeforeTarget(opts: string, rest: string)
    requires Bare(opts) && opts != ""
    ensures Lex("scp" + " " + (opts + " " + ("--" + " " + rest)), Between([])) ==
            Lex(rest, Between(["scp", opts, "--"]))
  {
    LexBareWord("scp", opts + " " + ("--" + " " + rest), []);
    LexBareWord(opts, "--" + " " + rest, ["scp"]);
    LexBareWord("--", rest, ["scp", opts]);
    assert [] + ["scp"] == ["scp"];
    assert ["scp"] + [opts] == ["scp", opts];
    assert ["scp", opts] + ["--"] == ["scp", opts, "--"];
  }

  /** The words of an scp command line with one option word and a quoted target. */
  lemma WordsOfCommand(opts: string, target: string)
    requires Bare(opts) && opts != ""
    ensures Finish(Lex("scp " + opts + " -- " + QuoteWord(target), START)) == Some(["scp", opts, "--", target])
  {
    var q := QuoteWord(target);
    assert "scp " + opts + " -- " + q == "scp" + " " + (opts + " " + ("--" + " " + q));
    WordsBeforeTarget(opts, q);
    LastWord(target, ["scp", opts, "--"]);
    assert ["scp", opts, "--"] + [target] == ["scp", opts, "--", target];
  }

  /** parseSCPExec recovers the target unchanged, whatever it contains, and reads
      mode and flags from the option word. */
  lemma ExecRecoversTarget(opts: string, target: string)
    requires Bare(opts) && "-" <= opts && opts != "--" && ('t' in opts || 'f' in opts)
    ensures ParseExec("scp " + opts + " -- " + QuoteWord(target)) ==
            Some(Request(if 't' in opts then Sink else Source, target, 'p' in opts, 'r' in opts))
  {
    WordsOfCommand(opts, target);
    var a0 := Args(None, false, false, false, []);
    var words := ["scp", opts, "--", target];
    assert words[1..] == [opts, "--", target];
    assert [opts, "--", target][1..] == ["--", target];
    assert ["--", target][1..] == [target];
    assert [target][1..] == [];
    var a1 := a0.(mode := if 't' in opts then Some(Sink) else Some(Source), preserve := 'p' in opts, recursive := 'r' in opts);
    assert ReadArgs([opts, "--", target], a0) == ReadArgs(["--", target], a1);
    var a2 := a1.(optionsDone := true);
    assert ReadArgs(["--", target], a1) == ReadArgs([target], a2);
    assert ReadArgs([target], a2) == ReadArgs([], a2.(targets := [] + [target]));
    assert ReadArgs([], a2.(targets := [target])) == a2.(targets := [target]);
  }
}
