/** POSIX single-quoting of paths, undone by the shell's own reading rules. */
module ShellQuote {
  import opened Wrappers

  /** `'` becomes `'\''`: close the quotes, an escaped quote, open them again. */
  function Escape(p: string): string {
    if p == "" then "" else (if p[0] == '\'' then "'\\''" else [p[0]]) + Escape(p[1..])
  }

  function Quote(p: string): string {
    "'" + Escape(p) + "'"
  }

  // ---- The shell's reading rules (POSIX Shell Command Language, section 2) ----

  datatype Token = Word(text: string) | AndIf

  /** Characters that stand for themselves outside quotes here; the others end a word,
      quote, or have a meaning this reader does not model. */
  predicate Plain(c: char) {
    'a' <= c <= 'z' || 'A' <= c <= 'Z' || '0' <= c <= '9' || c == '/' || c == '.' || c == '_' || c == '-'
  }

  /** Ends the word in progress, if there is one. */
  function Flush(word: Option<string>): seq<Token> {
    if word.Some? then [Word(word.value)] else []
  }

  function Extend(word: Option<string>, text: string): Option<string> {
    if word.Some? then Some(word.value + text) else Some(text)
  }

  /** Token recognition: blanks separate words, `&&` is an operator; outside quotes a
      backslash keeps the next character and is removed, but with a newline it vanishes
      altogether (2.2.1); single quotes keep everything up to the next single quote
      (2.2.2). None for an unterminated quote or a character outside the model. */
  function Lex(s: string, word: Option<string>): Option<seq<Token>>
    decreases |s|
  {
    if s == "" then Some(Flush(word))
    else if s[0] == ' ' || s[0] == '\t' then Prepend(Flush(word), Lex(s[1..], None))
    else if s[0] == '&' then
      if |s| >= 2 && s[1] == '&' then Prepend(Flush(word) + [AndIf], Lex(s[2..], None)) else None
    else if s[0] == '\\' then
      if |s| < 2 then None
      else if s[1] == '\n' then Lex(s[2..], word)
      else Lex(s[2..], Extend(word, [s[1]]))
    else if s[0] == '\'' then
      var n := CloseQuote(s[1..]);
      if n == |s| - 1 then None else Lex(s[n + 2..], Extend(word, s[1..n + 1]))
    else if Plain(s[0]) then Lex(s[1..], Extend(word, [s[0]]))
    else None
  }

  /** Position of the next single quote, or the length. */
  function CloseQuote(s: string): (n: nat)
    ensures n <= |s|
  {
    if s == "" || s[0] == '\'' then 0 else 1 + CloseQuote(s[1..])
  }

  function Prepend(tokens: seq<Token>, rest: Option<seq<Token>>): Option<seq<Token>> {
    if rest.Some? then Some(tokens + rest.value) else None
  }

  function Read(s: string): Option<seq<Token>> {
    Lex(s, None)
  }

  // ---- Quoting is undone ----

  lemma {:induction false} CloseQuoteAfter(a: string, b: string)
    requires forall i :: 0 <= i < |a| ==> a[i] != '\''
    ensures CloseQuote(a + "'" + b) == |a|
  {
    var s := a + "'" + b;
    if a != "" {
      CloseQuoteAfter(a[1..], b);
      assert s[1..] == a[1..] + "'" + b;
    }
  }

  lemma {:induction false} HeadIsQuoteFree(p: string)
    ensures forall i :: 0 <= i < CloseQuote(p) ==> p[i] != '\''
    ensures CloseQuote(p) < |p| ==> p[CloseQuote(p)] == '\''
    ensures Escape(p) == p[..CloseQuote(p)] + Escape(p[CloseQuote(p)..])
  {
    if p != "" && p[0] != '\'' {
      HeadIsQuoteFree(p[1..]);
      assert p[1..][CloseQuote(p[1..])..] == p[CloseQuote(p)..];
      assert p[..CloseQuote(p)] == [p[0]] + p[1..][..CloseQuote(p[1..])];
    } else {
      assert p[0..] == p;
    }
  }

  /** One pair of quotes is read as its contents. */
  lemma LexQuoted(a: string, rest: string, word: Option<string>)
    requires forall i :: 0 <= i < |a| ==> a[i] != '\''
    ensures Lex("'" + a + "'" + rest, word) == Lex(rest, Extend(word, a))
  {
    var s := "'" + a + "'" + rest;
    assert s[1..] == a + "'" + rest;
    CloseQuoteAfter(a, rest);
    assert s[1..|a| + 1] == a && s[|a| + 2..] == rest;
  }

  lemma LexEscapedQuote(rest: string, word: Option<string>)
    ensures Lex("\\'" + rest, word) == Lex(rest, Extend(word, "'"))
  {
    var s := "\\'" + rest;
    assert s[0] == '\\' && s[1] == '\'' && s[2..] == rest;
  }

  /** The quoted path up to and past its first single quote. */
  lemma QuoteSplit(p: string, rest: string)
    ensures var a := p[..CloseQuote(p)];
      if CloseQuote(p) == |p| then a == p && Quote(p) + rest == "'" + a + "'" + rest
      else
        var c := p[CloseQuote(p) + 1..];
        && p == a + "'" + c
        && Quote(p) + rest == "'" + a + "'" + ("\\'" + (Quote(c) + rest))
  {
    HeadIsQuoteFree(p);
    var a, b := p[..CloseQuote(p)], p[CloseQuote(p)..];
    if CloseQuote(p) < |p| {
      var c := b[1..];
      assert Escape(b) == "'\\''" + Escape(c);
      assert Quote(p) == "'" + a + "'" + ("\\'" + Quote(c));
    }
  }

  lemma ExtendTwice(word: Option<string>, a: string, b: string, c: string)
    ensures Extend(Extend(Extend(word, a), b), c) == Extend(word, a + b + c)
  {
    if word.Some? {
      assert word.value + a + b + c == word.value + (a + b + c);
    }
  }

  /** Whatever word is in progress, a quoted path adds exactly the path to it. */
  lemma {:induction false} LexQuote(p: string, rest: string, word: Option<string>)
    ensures Lex(Quote(p) + rest, word) == Lex(rest, Extend(word, p))
    decreases |p|
  {
    var n := CloseQuote(p);
    var a := p[..n];
    HeadIsQuoteFree(p);
    QuoteSplit(p, rest);
    if n == |p| {
      LexQuoted(a, rest, word);
    } else {
      var c := p[n + 1..];
      var s := Quote(c) + rest;
      var t := "\\'" + s;
      assert Lex(Quote(p) + rest, word) == Lex(t, Extend(word, a)) by {
        LexQuoted(a, t, word);
      }
      assert Lex(t, Extend(word, a)) == Lex(s, Extend(Extend(word, a), "'")) by {
        LexEscapedQuote(s, Extend(word, a));
      }
      LexQuote(c, rest, Extend(Extend(word, a), "'"));
      ExtendTwice(word, a, "'", c);
    }
  }

  // ---- Main results ----

  /** For every path, the shell reads `Quote` of it back as one word, the path itself. */
  lemma QuoteRoundTrip(p: string)
    ensures Read(Quote(p)) == Some([Word(p)])
  {
    LexQuote(p, "", None);
    assert Quote(p) + "" == Quote(p);
  }

  lemma QuoteInjective(p: string, q: string)
    ensures Quote(p) == Quote(q) <==> p == q
  {
    QuoteRoundTrip(p);
    QuoteRoundTrip(q);
  }

  /** The `sh -c` text that `build_args` hands to the terminal. */
  function InnerCommand(cwd: string, entheai: string): string {
    "cd " + Quote(cwd) + " && exec " + Quote(entheai)
  }

  /** Reading plain characters outside quotes. */
  lemma {:induction false} LexPlain(w: string, rest: string, word: Option<string>)
    requires w != "" && forall i :: 0 <= i < |w| ==> Plain(w[i])
    ensures Lex(w + rest, word) == Lex(rest, Extend(word, w))
    decreases |w|
  {
    var s := w + rest;
    assert s[1..] == w[1..] + rest;
    if |w| > 1 {
      LexPlain(w[1..], rest, Extend(word, [w[0]]));
      assert [w[0]] + w[1..] == w;
      if word.Some? {
        assert word.value + [w[0]] + w[1..] == word.value + w;
      }
    } else {
      assert w[1..] + rest == rest;
      assert [w[0]] == w;
    }
  }

  lemma LexBlank(rest: string, word: Option<string>)
    ensures Lex(" " + rest, word) == Prepend(Flush(word), Lex(rest, None))
  {
    assert (" " + rest)[1..] == rest;
  }

  lemma LexAndIf(rest: string)
    ensures Lex("&&" + rest, None) == Prepend([AndIf], Lex(rest, None))
  {
    var s := "&&" + rest;
    assert s[0] == '&' && s[1] == '&' && s[2..] == rest;
    assert Flush(None) + [AndIf] == [AndIf];
  }

  /** A plain word and a quoted one, read from a blank on. */
  lemma LexLastTwo(w: string, p: string)
    requires w != "" && forall i :: 0 <= i < |w| ==> Plain(w[i])
    ensures Lex(w + (" " + Quote(p)), None) == Some([Word(w), Word(p)])
  {
    QuoteRoundTrip(p);
    LexBlank(Quote(p), Some(w));
    LexPlain(w, " " + Quote(p), None);
    assert [Word(w)] + [Word(p)] == [Word(w), Word(p)];
  }

  /** From the and-if on. */
  lemma LexExec(p: string)
    ensures Lex("&&" + (" " + ("exec" + (" " + Quote(p)))), None) == Some([AndIf, Word("exec"), Word(p)])
  {
    var s := "exec" + (" " + Quote(p));
    LexLastTwo("exec", p);
    LexBlank(s, None);
    LexAndIf(" " + s);
    assert [] + [Word("exec"), Word(p)] == [Word("exec"), Word(p)];
    assert [AndIf] + [Word("exec"), Word(p)] == [AndIf, Word("exec"), Word(p)];
  }

  /** From the blank after `cd` on. */
  lemma LexDirectory(cwd: string, rest: string, tokens: seq<Token>)
    requires Lex(rest, None) == Some(tokens)
    ensures Lex("cd" + (" " + (Quote(cwd) + (" " + rest))), None) == Some([Word("cd"), Word(cwd)] + tokens)
  {
    var s := Quote(cwd) + (" " + rest);
    LexBlank(rest, Some(cwd));
    LexQuote(cwd, " " + rest, None);
    assert Lex(s, None) == Some([Word(cwd)] + tokens);
    LexBlank(s, Some("cd"));
    LexPlain("cd", " " + s, None);
    assert [Word("cd")] + ([Word(cwd)] + tokens) == [Word("cd"), Word(cwd)] + tokens;
  }

  lemma InnerCommandShape(a: string, b: string)
    ensures "cd " + a + " && exec " + b == "cd" + (" " + (a + (" " + ("&&" + (" " + ("exec" + (" " + b)))))))
  {
    assert " && exec " + b == " " + ("&&" + (" " + ("exec" + (" " + b))));
  }

  /** The inner command is read as: cd, the working directory, and-if, exec, the program. */
  lemma InnerCommandRecovered(cwd: string, entheai: string)
    ensures Read(InnerCommand(cwd, entheai)) == Some([Word("cd"), Word(cwd), AndIf, Word("exec"), Word(entheai)])
  {
    var rest := "&&" + (" " + ("exec" + (" " + Quote(entheai))));
    var tokens := [AndIf, Word("exec"), Word(entheai)];
    LexExec(entheai);
    LexDirectory(cwd, rest, tokens);
    InnerCommandShape(Quote(cwd), Quote(entheai));
    assert [Word("cd"), Word(cwd)] + tokens == [Word("cd"), Word(cwd), AndIf, Word("exec"), Word(entheai)];
  }
}
