/** What the tokeniser reads, with every character spelt out: words, blanks, marks, comments and quotes; and what
    the parser makes of comments, and of words with no space between them. */
module Spelling {
  import opened Lexer
  import opened Grammar

  /** The characters a plain word may begin with, those it may go on with, and those that end it. */
  predicate BeginsWord(c: char) { c !in " \t\n\r;{}'\"#" }

  predicate GoesOn(c: char) { c !in " \t\n;{}'\"" }

  predicate IsWordText(w: string) { w != "" && BeginsWord(w[0]) && forall i :: 1 <= i < |w| ==> GoesOn(w[i]) }

  predicate BlankText(b: string) { forall c :: c in b ==> c in " \t\n\r" }

  lemma WordCharsAre(c: char)
    ensures EndsWord(c) <==> !GoesOn(c)
    ensures StartsWord(c) <==> BeginsWord(c)
  {
  }

  lemma WordTextIff(w: string)
    ensures PlainWord(w) <==> IsWordText(w)
  {
    if w != "" {
      WordCharsAre(w[0]);
      forall i | 1 <= i < |w|
        ensures EndsWord(w[1..][i - 1]) <==> !GoesOn(w[i])
      {
        WordCharsAre(w[i]);
      }
      if IsWordText(w) {
        forall i | 0 <= i < |w[1..]|
          ensures !EndsWord(w[1..][i])
        {
          assert EndsWord(w[1..][i]) <==> !GoesOn(w[i + 1]);
        }
      }
    }
  }

  lemma BlankTextIff(b: string)
    ensures AllBlank(b) <==> BlankText(b)
  {
    if BlankText(b) {
      assert forall i :: 0 <= i < |b| ==> b[i] in b;
    }
  }

  /** A word is read up to the first character that ends one, and that character is not consumed; '#' and '\\r'
      do not end a word. */
  lemma WordLexes(w: string, c: char, rest: string)
    requires w != "" && w[0] !in " \t\n\r;{}'\"#" && forall i :: 1 <= i < |w| ==> w[i] !in " \t\n;{}'\""
    requires c in " \t\n;{}'\""
    ensures Lex(w + [c] + rest) == Lexeme(Normal, w, false, [c] + rest)
  {
    WordTextIff(w);
    WordCharsAre(c);
    Reading(w + [c] + rest, "", w, Lexeme(Normal, w, false, [c] + rest));
  }

  lemma Reading(s: string, blanks: string, raw: string, l: Lexeme)
    requires s == blanks + (raw + l.rest) && BlankText(blanks) && (l.ws <==> ' ' in blanks) && RawOf(raw, l)
    ensures Lex(s) == l
  {
    BlankTextIff(blanks);
    assert ReadsAs(s, blanks, raw, l);
    ReadsDeterminesLex(s, blanks, raw, l);
  }

  /** Conversely, whatever is read as a word has that form, behind blanks. */
  lemma NormalIsWord(s: string) returns (blanks: string)
    requires Lex(s).kind == Normal
    ensures var l := Lex(s);
            && s == blanks + l.value + l.rest && (forall c :: c in blanks ==> c in " \t\n\r")
            && (l.ws <==> ' ' in blanks)
            && l.value != "" && l.value[0] !in " \t\n\r;{}'\"#"
            && (forall i :: 1 <= i < |l.value| ==> l.value[i] !in " \t\n;{}'\"")
            && l.rest != "" && l.rest[0] in " \t\n;{}'\""
  {
    var l := Lex(s);
    LexIffReads(s, l);
    var raw;
    blanks, raw :| ReadsAs(s, blanks, raw, l);
    BlankTextIff(blanks);
    WordTextIff(l.value);
    WordCharsAre(l.rest[0]);
  }

  /** Blanks are skipped; a space among them is noted, the others are not. */
  lemma BlanksSkipped(b: string, s: string)
    requires forall c :: c in b ==> c in " \t\n\r"
    ensures Lex(b + s) == Lex(s).(ws := Lex(s).ws || ' ' in b)
  {
    var l := Lex(s);
    LexIffReads(s, l);
    var blanks, raw :| ReadsAs(s, blanks, raw, l);
    var l' := l.(ws := l.ws || ' ' in b);
    BlankTextIff(b);
    assert b + s == (b + blanks) + (raw + l'.rest);
    BlankTextIff(b + blanks);
    Reading(b + s, b + blanks, raw, l');
  }

  lemma FirstOf(a: string, b: string, c: char, s: string)
    requires a != "" && a + b == [c] + s
    ensures a[0] == c
  {
    assert (a + b)[0] == a[0];
  }

  /** A character that is not blank is not skipped: it begins the token, unless the text ends in it. */
  lemma NothingElseSkipped(c: char, s: string)
    requires c !in " \t\n\r"
    ensures !Lex([c] + s).ws
    ensures Lex([c] + s).kind != EndOfFile ==> Lex([c] + s).value != "" && Lex([c] + s).value[0] == c
  {
    var l := Lex([c] + s);
    LexIffReads([c] + s, l);
    var blanks, raw :| ReadsAs([c] + s, blanks, raw, l);
    if blanks != "" {
      FirstOf(blanks, raw + l.rest, c, s);
    }
    if raw != "" {
      FirstOf(raw, l.rest, c, s);
    }
  }

  /** Each mark is a token of its own. */
  lemma MarksLex(rest: string)
    ensures Lex("{" + rest) == Lexeme(StartBlock, "{", false, rest)
    ensures Lex("}" + rest) == Lexeme(EndBlock, "}", false, rest)
    ensures Lex(";" + rest) == Lexeme(StatementEnd, ";", false, rest)
  {
    Reading("{" + rest, "", "{", Lexeme(StartBlock, "{", false, rest));
    Reading("}" + rest, "", "}", Lexeme(EndBlock, "}", false, rest));
    Reading(";" + rest, "", ";", Lexeme(StatementEnd, ";", false, rest));
  }

  /** A comment goes from '#' to the end of the line, and the end of the line goes with it. */
  lemma CommentLexes(text: string, end: char, rest: string)
    requires '\n' !in text && '\r' !in text && (end == '\n' || end == '\r')
    ensures Lex("#" + text + [end] + rest) == Lexeme(Comment, "#" + text, false, rest)
  {
    var w := "#" + text;
    assert w[1..] == text;
    Reading(w + [end] + rest, "", w + [end], Lexeme(Comment, w, false, rest));
  }

  /** What the text leaves unfinished at its end is dropped, but for a quote, which is an error. */
  lemma UnfinishedAtEnd(w: string)
    requires IsWordText(w) || (w != "" && w[0] == '#' && '\n' !in w && '\r' !in w)
    ensures Lex(w) == Lexeme(EndOfFile, w, false, "")
  {
    WordTextIff(w);
    assert w == "" + (w + "");
    Reading(w, "", w, Lexeme(EndOfFile, w, false, ""));
  }

  /** Between quotes of one kind a body with no backslash and no such quote is taken as it is. */
  lemma CleanQuoteLexes(q: char, body: string, rest: string)
    requires (q == '"' || q == '\'') && '\\' !in body && q !in body
    ensures Lex([q] + body + [q] + rest) == Lexeme(Quoted, [q] + body + [q], false, rest)
  {
    NothingToEscape(q, body);
    QuotedRoundTrip(q, body, rest);
  }

  lemma {:induction false} NothingToEscape(q: char, body: string)
    requires '\\' !in body && q !in body
    ensures Escape(q, body) == body
  {
    if body != "" {
      NothingToEscape(q, body[1..]);
      assert body == [body[0]] + body[1..];
    }
  }

  /** In the escaped form a backslash stands before each backslash and each quote of that kind, and nowhere
      else. */
  lemma {:induction false} EscapeIs(q: char, body: string, c: char)
    ensures Escape(q, "") == ""
    ensures Escape(q, body + [c]) == Escape(q, body) + (if c == '\\' || c == q then ['\\', c] else [c])
    decreases |body|
  {
    if body == "" {
      assert (body + [c])[1..] == "";
      assert EscapeChar(q, c) + "" == "" + EscapeChar(q, c);
    } else {
      assert (body + [c])[1..] == body[1..] + [c];
      EscapeIs(q, body[1..], c);
      var e := if c == '\\' || c == q then ['\\', c] else [c];
      assert EscapeChar(q, body[0]) + (Escape(q, body[1..]) + e) == (EscapeChar(q, body[0]) + Escape(q, body[1..])) + e;
    }
  }

  /** A backslash before anything else is an error. */
  lemma BadEscapeErrs(q: char, body: string, c: char, rest: string)
    requires (q == '"' || q == '\'') && '\\' !in body && q !in body && c != '\\' && c != q
    ensures Lex([q] + body + ['\\', c] + rest) == Lexeme(Error, [q] + body + ['\\', c], false, rest)
  {
    NothingToEscape(q, body);
    var raw := [q] + body + ['\\', c];
    assert BadQuoteAs(raw, rest, q, body, ['\\', c]);
    Reading(raw + rest, "", raw, Lexeme(Error, raw, false, rest));
  }

  /** A quote that is not closed is an error. */
  lemma UnfinishedQuoteErrs(q: char, body: string)
    requires (q == '"' || q == '\'') && '\\' !in body && q !in body
    ensures Lex([q] + body) == Lexeme(Error, [q] + body, false, "")
  {
    NothingToEscape(q, body);
    var raw := [q] + body;
    assert raw == [q] + body + "";
    assert BadQuoteAs(raw, "", q, body, "");
    assert raw == "" + (raw + "");
    Reading(raw, "", raw, Lexeme(Error, raw, false, ""));
  }

  // --- the parser -----------------------------------------------------------------------------

  /** A comment and the blanks before it are as if they were not there; a space before it does not separate
      words. */
  lemma CommentLineIgnored(config: seq<Statement>, blanks: string, text: string, end: char, rest: string)
    requires (forall c :: c in blanks ==> c in " \t\n\r") && '\n' !in text && '\r' !in text
    requires end == '\n' || end == '\r'
    ensures Tokens(blanks + ("#" + text + [end] + rest)) == Tokens(rest)
    ensures ParseInto(config, blanks + ("#" + text + [end] + rest)) == ParseInto(config, rest)
  {
    var s := blanks + ("#" + text + [end] + rest);
    CommentLexes(text, end, rest);
    BlanksSkipped(blanks, "#" + text + [end] + rest);
    var m := Init(config);
    OutcomeOf(config, m, s);
    OutcomeOf(config, m, rest);
  }

  /** A second word without a space before it. */
  lemma SecondWordRejected(config: seq<Statement>, m: Machine, ts: seq<Token>)
    requires m == Init(config) && |ts| >= 2 && IsWord(ts[0].kind) && IsWord(ts[1].kind) && !ts[1].ws
    ensures Steps(m, ts) == Done(Rejected)
  {
    var m1 := Step(m, ts[0]).m;
    assert Step(m1, ts[1]) == Done(Rejected);
    assert ts[1..][0] == ts[1];
  }

  /** A quoted string right behind a word is refused. */
  lemma GluedQuoteRejected(config: seq<Statement>, w: string, q: char, body: string, rest: string)
    requires IsWordText(w) && (q == '"' || q == '\'') && '\\' !in body && q !in body
    ensures ParseInto(config, w + ([q] + body + [q] + rest)) == Rejected
  {
    var quote := [q] + body + [q] + rest;
    var s := w + quote;
    CleanQuoteLexes(q, body, rest);
    assert s == w + [q] + (body + [q] + rest) && quote == [q] + (body + [q] + rest);
    WordLexes(w, q, body + [q] + rest);
    TwoTokens(s, Lexeme(Normal, w, false, quote), Lexeme(Quoted, [q] + body + [q], false, rest));
    OutcomeOf(config, Init(config), s);
    SecondWordRejected(config, Init(config), Tokens(s));
  }

  lemma TwoTokens(s: string, first: Lexeme, second: Lexeme)
    requires Lex(s) == first && Lex(first.rest) == second && IsWord(first.kind) && IsWord(second.kind)
    ensures var ts := Tokens(s);
            |ts| >= 2 && IsWord(ts[0].kind) && IsWord(ts[1].kind) && ts[0].ws == first.ws && ts[1].ws == second.ws
  {
    assert Tokens(s) == [Token(first.kind, first.value, first.ws)] + Tokens(first.rest);
    assert Tokens(first.rest) == [Token(second.kind, second.value, second.ws)] + Tokens(second.rest);
  }

  /** Two words with tabs or ends of lines between them, but no space, are refused too. */
  lemma TabbedWordRejected(config: seq<Statement>, w: string, tab: char, blanks: string, v: string, c: char,
                           rest: string)
    requires IsWordText(w) && IsWordText(v) && (tab == '\t' || tab == '\n') && c in " \t\n;{}'\""
    requires forall b :: b in blanks ==> b in "\t\n\r"
    ensures ParseInto(config, w + [tab] + (blanks + (v + [c] + rest))) == Rejected
  {
    var word := v + [c] + rest;
    var s := w + [tab] + (blanks + word);
    WordLexes(w, tab, blanks + word);
    WordLexes(v, c, rest);
    assert forall b :: b in [tab] + blanks ==> b in " \t\n\r";
    BlanksSkipped([tab] + blanks, word);
    assert [tab] + blanks + word == [tab] + (blanks + word);
    assert ' ' !in [tab] + blanks;
    TwoTokens(s, Lexeme(Normal, w, false, [tab] + (blanks + word)), Lexeme(Normal, v, false, [c] + rest));
    OutcomeOf(config, Init(config), s);
    SecondWordRejected(config, Init(config), Tokens(s));
  }
}
