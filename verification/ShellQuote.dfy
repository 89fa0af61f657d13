/** The command line a non-interactive session runs over SSH (cmd/poc/main.go), read back by the quoting
    rules of sections 2.2 and 2.3 of POSIX.1-2017 XCU. The text is lexed twice: by the remote login shell
    and again by the `bash -lc` it starts. */
module ShellQuote {
  import opened Options

  const NUL: char := 0 as char

  // ----- what the program builds ---------------------------------------------------------------------

  /** Every single quote replaced by '"'"'. */
  function Escape(s: string): string {
    if s == "" then "" else (if s[0] == '\'' then QUOTED_QUOTE else [s[0]]) + Escape(s[1..])
  }

  const QUOTED_QUOTE: string := ['\'', '"', '\'', '"', '\'']

  function Quote(s: string): string {
    "'" + Escape(s) + "'"
  }

  const CLAUDE: seq<string> := ["claude", "--dangerously-skip-permissions", "--output-format", "json", "-p"]

  /** claude --dangerously-skip-permissions --output-format json -p '...' */
  function InnerCommand(prompt: string): string {
    "claude" + " " + "--dangerously-skip-permissions" + " " + "--output-format" + " " + "json" + " " + "-p" + " "
      + Quote(prompt)
  }

  /** bash -lc '...' */
  function SshCommand(prompt: string): string {
    "bash" + " " + "-lc" + " " + Quote(InnerCommand(prompt))
  }

  // ----- how a shell reads it ------------------------------------------------------------------------

  /** Outside quotes, in single quotes (2.2.2) or in double quotes (2.2.3). */
  datatype Mode = Plain | Single | Double

  predicate Blank(c: char) { c == ' ' || c == '\t' }

  /** Characters that mean something else outside quotes: operators, expansions, patterns, comments. */
  predicate Active(c: char) {
    || c == '|' || c == '&' || c == ';' || c == '<' || c == '>' || c == '(' || c == ')' || c == '$' || c == '`'
    || c == '*' || c == '?' || c == '[' || c == '#' || c == '~' || c == '=' || c == '%' || c == '\n'
  }

  /** Inside double quotes only these start something. */
  predicate Expands(c: char) { c == '$' || c == '`' }

  predicate Ordinary(c: char) { !Blank(c) && !Active(c) && c != '\'' && c != '"' && c != '\\' && c != NUL }

  /** The word with one more character, or with none yet: quotes start a word even when it stays empty. */
  function Extend(word: Option<string>, c: char): Option<string> {
    match word case None => Some([c]) case Some(w) => Some(w + [c])
  }

  function Begin(word: Option<string>): Option<string> {
    if word.None? then Some("") else word
  }

  function Finish(done: seq<string>, word: Option<string>): seq<string> {
    match word case None => done case Some(w) => done + [w]
  }

  /** The words of a simple command, or None when the text is not one whose words are fixed by quoting
      alone: it has an active character, an open quote or a NUL, which no argument can carry. `word` is the
      word being read. */
  function Lex(s: string, mode: Mode, word: Option<string>, done: seq<string>): Option<seq<string>>
    decreases |s|
  {
    if s == "" then
      if mode != Plain then None else Some(Finish(done, word))
    else if s[0] == NUL then None
    else
      var c, rest := s[0], s[1..];
      match mode
      case Plain =>
        if c == '\'' then Lex(rest, Single, Begin(word), done)
        else if c == '"' then Lex(rest, Double, Begin(word), done)
        else if c == '\\' then
          if rest == "" || rest[0] == NUL then None
          else Lex(rest[1..], Plain, if rest[0] == '\n' then word else Extend(word, rest[0]), done)
        else if Blank(c) then Lex(rest, Plain, None, Finish(done, word))
        else if Active(c) then None
        else Lex(rest, Plain, Extend(word, c), done)
      case Single =>
        if c == '\'' then Lex(rest, Plain, word, done) else Lex(rest, Single, Extend(word, c), done)
      case Double =>
        if c == '"' then Lex(rest, Plain, word, done)
        else if Expands(c) then None
        else if c == '\\' && rest != "" && rest[0] in "$`\"\\" then Lex(rest[1..], Double, Extend(word, rest[0]), done)
        else if c == '\\' && rest != "" && rest[0] == '\n' then Lex(rest[1..], Double, word, done)
        else Lex(rest, Double, Extend(word, c), done)
  }

  function Words(s: string): Option<seq<string>> {
    Lex(s, Plain, None, [])
  }

  // ----- reading the quoted text back ----------------------------------------------------------------

  lemma StepDouble(c: char, rest: string, word: Option<string>, done: seq<string>)
    requires c == '"' || c == '\''
    ensures Lex([c] + rest, Double, word, done) ==
      if c == '"' then Lex(rest, Plain, word, done) else Lex(rest, Double, Extend(word, c), done)
  {
    assert ([c] + rest)[1..] == rest;
  }

  lemma Spread(a: char, b: char, c: char, d: char, e: char, rest: string)
    ensures [a, b, c, d, e] + rest == [a] + ([b] + ([c] + ([d] + ([e] + rest))))
  {
  }

  /** One single quote: out of the single quotes, a double-quoted quote, and back in. */
  lemma LexEscapedQuote(rest: string, w: string, done: seq<string>)
    ensures Lex(QUOTED_QUOTE + rest, Single, Some(w), done) == Lex(rest, Single, Some(w + ['\'']), done)
  {
    var q, d := '\'', '"';
    Spread(q, d, q, d, q, rest);
    StepDouble(q, [d] + ([q] + rest), Some(w), done);
    StepDouble(d, [q] + rest, Some(w + [q]), done);
  }

  /** From inside single quotes, the escaped text followed by the closing quote adds exactly the text to
      the word, unless it has a NUL. */
  lemma {:induction false} LexEscaped(t: string, w: string, rest: string, done: seq<string>)
    ensures Lex(Escape(t) + ("'" + rest), Single, Some(w), done) ==
      if NUL in t then None else Lex(rest, Plain, Some(w + t), done)
    decreases |t|
  {
    if t == "" {
      assert Escape(t) + ("'" + rest) == "'" + rest;
      assert w + t == w;
    } else {
      var tail := Escape(t[1..]) + ("'" + rest);
      if t[0] == '\'' {
        assert Escape(t) + ("'" + rest) == QUOTED_QUOTE + tail;
        LexEscapedQuote(tail, w, done);
      } else {
        assert Escape(t) + ("'" + rest) == [t[0]] + tail;
      }
      LexEscaped(t[1..], w + [t[0]], rest, done);
      assert w + [t[0]] + t[1..] == w + t;
    }
  }

  /** A quoted text at the start of a word reads back as exactly that text. */
  lemma LexQuoted(t: string, done: seq<string>)
    ensures Lex(Quote(t), Plain, None, done) == if NUL in t then None else Some(done + [t])
  {
    assert Quote(t) == ['\''] + (Escape(t) + ("'" + ""));
    LexEscaped(t, "", "", done);
    assert "" + t == t;
  }

  /** A word that needs no quotes. */
  predicate Bare(t: string) {
    t != "" && forall i | 0 <= i < |t| :: Ordinary(t[i])
  }

  lemma {:induction false} LexOrdinary(t: string, u: string, rest: string, done: seq<string>)
    requires forall i | 0 <= i < |t| :: Ordinary(t[i])
    ensures Lex(t + rest, Plain, Some(u), done) == Lex(rest, Plain, Some(u + t), done)
    decreases |t|
  {
    if t == "" {
      assert t + rest == rest && u + t == u;
    } else {
      assert t + rest == [t[0]] + (t[1..] + rest);
      LexOrdinary(t[1..], u + [t[0]], rest, done);
      assert u + [t[0]] + t[1..] == u + t;
    }
  }

  /** A bare word and the blank after it. */
  lemma LexBare(t: string, rest: string, done: seq<string>)
    requires Bare(t)
    ensures Lex(t + " " + rest, Plain, None, done) == Lex(rest, Plain, None, done + [t])
  {
    assert t + " " + rest == [t[0]] + (t[1..] + ([' '] + rest));
    LexOrdinary(t[1..], [t[0]], [' '] + rest, done);
    assert [t[0]] + t[1..] == t;
  }

  /** Bare words, each with a blank after it, and then one quoted text. */
  function Line(ws: seq<string>, t: string): string {
    if ws == [] then Quote(t) else ws[0] + " " + Line(ws[1..], t)
  }

  lemma {:induction false} LexLine(ws: seq<string>, t: string, done: seq<string>)
    requires forall i | 0 <= i < |ws| :: Bare(ws[i])
    ensures Lex(Line(ws, t), Plain, None, done) == if NUL in t then None else Some(done + ws + [t])
    decreases |ws|
  {
    if ws == [] {
      LexQuoted(t, done);
      assert done + ws == done;
    } else {
      LexBare(ws[0], Line(ws[1..], t), done);
      LexLine(ws[1..], t, done + [ws[0]]);
      assert done + [ws[0]] + ws[1..] == done + ws;
    }
  }

  lemma LineOfTwo(a: string, b: string, t: string)
    ensures Line([a, b], t) == a + " " + b + " " + Quote(t)
  {
    assert [a, b][1..] == [b] && [b][1..] == [];
    assert Line([b], t) == b + " " + Quote(t);
  }

  lemma LineOfFive(a: string, b: string, c: string, d: string, e: string, t: string)
    ensures Line([a, b, c, d, e], t) == a + " " + b + " " + c + " " + d + " " + e + " " + Quote(t)
  {
    assert [a, b, c, d, e][1..] == [b, c, d, e] && [b, c, d, e][1..] == [c, d, e] && [c, d, e][1..] == [d, e];
    LineOfTwo(d, e, t);
    assert Line([c, d, e], t) == c + " " + Line([d, e], t);
    assert Line([b, c, d, e], t) == b + " " + Line([c, d, e], t);
  }

  lemma LongWordIsBare()
    ensures Bare("--dangerously-skip-permissions")
  {
  }

  lemma ShortWordsAreBare()
    ensures Bare("claude") && Bare("--output-format")
    ensures Bare("json") && Bare("-p") && Bare("bash") && Bare("-lc")
  {
  }

  lemma {:induction false} LineNul(ws: seq<string>, t: string)
    requires forall i | 0 <= i < |ws| :: Bare(ws[i])
    ensures NUL in Line(ws, t) <==> NUL in t
    decreases |ws|
  {
    if ws == [] {
      EscapeNul(t);
    } else {
      assert Bare(ws[0]) && NUL !in ws[0];
      LineNul(ws[1..], t);
    }
  }

  lemma {:induction false} EscapeNul(t: string)
    ensures NUL in Escape(t) <==> NUL in t
    decreases |t|
  {
    if t != "" {
      assert t == [t[0]] + t[1..];
      EscapeNul(t[1..]);
    }
  }

  /** The round trip: the login shell sees bash, -lc and one word, and bash reads that word as the fixed
      arguments and exactly the prompt. It holds for the NUL-free prompts and no others. */
  lemma PromptRoundTrip(prompt: string)
    ensures Words(SshCommand(prompt)) == (if NUL in prompt then None else Some(["bash", "-lc", InnerCommand(prompt)]))
    ensures Words(InnerCommand(prompt)) == (if NUL in prompt then None else Some(CLAUDE + [prompt]))
  {
    var inner, ws := InnerCommand(prompt), ["bash", "-lc"];
    LongWordIsBare();
    ShortWordsAreBare();
    LineOfFive(CLAUDE[0], CLAUDE[1], CLAUDE[2], CLAUDE[3], CLAUDE[4], prompt);
    LineOfTwo(ws[0], ws[1], inner);
    LexLine(CLAUDE, prompt, []);
    LineNul(CLAUDE, prompt);
    LexLine(ws, inner, []);
    assert [] + CLAUDE + [prompt] == CLAUDE + [prompt];
    assert [] + ws + [inner] == ["bash", "-lc", inner];
  }

  /** So no two prompts are sent as the same command. */
  lemma CommandsAreDistinct(p: string, q: string)
    requires NUL !in p && SshCommand(p) == SshCommand(q)
    ensures p == q
  {
    PromptRoundTrip(p);
    PromptRoundTrip(q);
    assert InnerCommand(p) == ["bash", "-lc", InnerCommand(p)][2];
    assert p == (CLAUDE + [p])[|CLAUDE|] && q == (CLAUDE + [q])[|CLAUDE|];
  }

  // ----- what the reading refuses and separates ------------------------------------------------------

  /** The reading is no more lenient than a shell: outside quotes an active character is refused, */
  lemma ActiveIsRefused(c: char, word: Option<string>, rest: string, done: seq<string>)
    requires c in "|&;<>()$`*?[#~=%\n"
    ensures Lex([c] + rest, Plain, word, done) == None
  {
  }

  /** inside double quotes an expansion is, */
  lemma ExpansionIsRefused(c: char, word: Option<string>, rest: string, done: seq<string>)
    requires c in "$`"
    ensures Lex([c] + rest, Double, word, done) == None
  {
  }

  /** an open quote is, and so is a NUL anywhere. */
  lemma OpenQuoteIsRefused(mode: Mode, word: Option<string>, rest: string, done: seq<string>)
    ensures mode != Plain ==> Lex("", mode, word, done) == None
    ensures Lex([NUL] + rest, mode, word, done) == None
  {
  }

  /** A backslash outside quotes takes the next character as it is, but drops a line break; inside double quotes it
      does so before the four characters that are special there and the line break only. */
  lemma BackslashEscapes(c: char, word: string, rest: string, done: seq<string>)
    requires c != NUL
    ensures Lex(['\\', c] + rest, Plain, Some(word), done) ==
      Lex(rest, Plain, Some(if c == '\n' then word else word + [c]), done)
    ensures c in "$`\"\\" ==>
      Lex(['\\', c] + rest, Double, Some(word), done) == Lex(rest, Double, Some(word + [c]), done)
    ensures c == '\n' ==> Lex(['\\', c] + rest, Double, Some(word), done) == Lex(rest, Double, Some(word), done)
    ensures c !in "$`\"\\\n" ==>
      Lex(['\\', c] + rest, Double, Some(word), done) == Lex([c] + rest, Double, Some(word + ['\\']), done)
  {
    assert (['\\', c] + rest)[1..] == [c] + rest && ([c] + rest)[1..] == rest;
  }

  /** Quotes make a word even when it stays empty, and blanks outside them separate words. */
  lemma EmptyWord(rest: string, done: seq<string>)
    ensures Lex("''" + rest, Plain, None, done) == Lex(rest, Plain, Some(""), done)
    ensures Lex("\"\"" + rest, Plain, None, done) == Lex(rest, Plain, Some(""), done)
  {
    assert ("''" + rest)[1..][1..] == rest && ("\"\"" + rest)[1..][1..] == rest;
    assert ("''" + rest)[1..][0] == '\'' && ("\"\"" + rest)[1..][0] == '"';
  }

  lemma BlankEndsWord(c: char, word: Option<string>, rest: string, done: seq<string>)
    requires c == ' ' || c == '\t'
    ensures Lex([c] + rest, Plain, word, done) ==
      Lex(rest, Plain, None, if word.Some? then done + [word.value] else done)
  {
    assert ([c] + rest)[1..] == rest;
  }
}
