/** `NginxConfig::ToString` and `NginxConfigStatement::ToString`, and the exact class of configs whose
    printed form parses back to the same tree. */
module Printer {
  import opened Lexer
  import opened Grammar

  // --- printing -----------------------------------------------------------------------------

  /** Two spaces for every level of depth; none for a negative depth. */
  function Indent(depth: int): (s: string)
    decreases depth
  {
    if depth <= 0 then "" else "  " + Indent(depth - 1)
  }

  /** The words after the first, each behind one space. */
  function Spaced(tokens: seq<string>): (s: string) {
    if tokens == [] then "" else " " + tokens[0] + Spaced(tokens[1..])
  }

  function Joined(tokens: seq<string>): (s: string) {
    if tokens == [] then "" else tokens[0] + Spaced(tokens[1..])
  }

  function PrintEnding(s: Statement, depth: int): (r: string)
    decreases s, 0
  {
    if s.Simple? then ";\n" else " {\n" + Print(s.body, depth + 1) + Indent(depth) + "}\n"
  }

  function PrintStatement(s: Statement, depth: int): (r: string)
    decreases s, 1
  {
    Indent(depth) + Joined(s.tokens) + PrintEnding(s, depth)
  }

  function Print(c: seq<Statement>, depth: int): (r: string)
    decreases c, 0
  {
    if c == [] then "" else PrintStatement(c[0], depth) + Print(c[1..], depth)
  }

  // --- which tokens survive -----------------------------------------------------------------

  /** Quotes around a body that has no backslash and no quote of the same kind. */
  predicate CleanQuoted(t: string) {
    QuotedValue(t) && forall i :: 0 <= i < |Body(t)| ==> Body(t)[i] != '\\' && Body(t)[i] != t[0]
  }

  predicate PrintableToken(t: string) { PlainWord(t) || CleanQuoted(t) }

  /** Every statement has a word, and every word prints as itself. */
  predicate Printable(c: seq<Statement>)
    decreases c
  {
    forall i :: 0 <= i < |c| ==>
      && c[i].tokens != []
      && (forall j :: 0 <= j < |c[i].tokens| ==> PrintableToken(c[i].tokens[j]))
      && (c[i].Block? ==> Printable(c[i].body))
  }

  lemma {:induction false} CleanEscape(q: char, b: string)
    requires forall i :: 0 <= i < |b| ==> b[i] != '\\' && b[i] != q
    ensures Escape(q, b) == b
  {
    if b != "" {
      CleanEscape(q, b[1..]);
      assert b == [b[0]] + b[1..];
    }
  }

  // --- one token ----------------------------------------------------------------------------

  function WordKind(t: string): Kind { if PlainWord(t) then Normal else Quoted }

  /** A printable token is read back as itself and the reader stops right behind it. */
  lemma LexPrintable(b: string, t: string, rest: string)
    requires AllBlank(b) && PrintableToken(t) && rest != "" && EndsWord(rest[0])
    ensures Lex(b + (t + rest)) == Lexeme(WordKind(t), t, ' ' in b, rest)
  {
    var l := Lexeme(WordKind(t), t, ' ' in b, rest);
    if !PlainWord(t) {
      CleanEscape(t[0], Body(t));
      assert t == [t[0]] + Body(t) + [t[0]];
    }
    assert ReadsAs(b + (t + rest), b, t, l);
    ReadsDeterminesLex(b + (t + rest), b, t, l);
  }

  lemma {:induction false} EscapeGrows(q: char, b: string)
    ensures |Escape(q, b)| >= |b|
  {
    if b != "" {
      EscapeGrows(q, b[1..]);
    }
  }

  /** The number of backslashes a text begins with. */
  function Slashes(s: string): (n: nat)
    ensures n <= |s| && (n < |s| ==> s[n] != '\\')
  {
    if s == "" || s[0] != '\\' then 0 else 1 + Slashes(s[1..])
  }

  /** Escaping doubles the backslashes at the front. */
  lemma {:induction false} EscapeSlashes(q: char, s: string)
    ensures |Escape(q, s)| >= 2 * Slashes(s)
    ensures forall i :: 0 <= i < 2 * Slashes(s) ==> Escape(q, s)[i] == '\\'
  {
    if Slashes(s) > 0 {
      EscapeSlashes(q, s[1..]);
    }
  }

  lemma SlashIsDoubled(q: char, b: string)
    requires q != '\\' && b != "" && b[0] == '\\'
    ensures !(b + [q] <= Escape(q, b) + [q])
  {
    var m := Slashes(b);
    EscapeSlashes(q, b);
    assert (b + [q])[m] != '\\';
    assert (Escape(q, b) + [q])[m] == Escape(q, b)[m] == '\\';
  }

  /** A body that, with its closing quote, begins its own escaped form has nothing to escape. */
  lemma {:induction false} SelfEscapedIsClean(q: char, b: string)
    requires q != '\\' && b + [q] <= Escape(q, b) + [q]
    ensures forall i :: 0 <= i < |b| ==> b[i] != '\\' && b[i] != q
  {
    if b != "" {
      var e := Escape(q, b) + [q];
      assert b[0] == (b + [q])[0] == e[0];
      assert b[0] != '\\' by {
        if b[0] == '\\' { SlashIsDoubled(q, b); }
      }
      assert (b + [q])[1..] == b[1..] + [q] && e[1..] == Escape(q, b[1..]) + [q];
      assert b[1..] + [q] == (b + [q])[1..] <= e[1..];
      SelfEscapedIsClean(q, b[1..]);
    }
  }

  /** The place where the first token that is not a comment is read. */
  lemma {:induction false} FirstToken(s: string) returns (from: string)
    ensures var l := Lex(from); l.kind != Comment && Tokens(s)[0] == Token(l.kind, l.value, l.ws)
    ensures Lex(s).kind != Comment ==> from == s
    decreases |s|
  {
    from := s;
    if Lex(s).kind == Comment {
      from := FirstToken(Lex(s).rest);
    }
  }

  lemma ShorterBlanks(a: string, s: string, b: string, t: string)
    requires AllBlank(b) && |a| < |b| && s != "" && !IsBlank(s[0])
    ensures a + s != b + t
  {
    assert (a + s)[|a|] == s[0];
    assert (b + t)[|a|] == b[|a|];
  }

  lemma SameBlanks(a: string, s: string, b: string, t: string)
    requires AllBlank(a) && AllBlank(b) && a + s == b + t
    requires s != "" && t != "" && !IsBlank(s[0]) && !IsBlank(t[0])
    ensures a == b && s == t
  {
    assert |a| == |b| by {
      if |a| < |b| { ShorterBlanks(a, s, b, t); }
      if |b| < |a| { ShorterBlanks(b, t, a, s); }
    }
    assert a == (a + s)[..|a|] == (b + t)[..|a|] == b;
    assert s == (a + s)[|a|..] == (b + t)[|a|..] == t;
  }

  lemma CommentStart(b: string, s: string)
    requires AllBlank(b) && s != "" && !IsBlank(s[0]) && Lex(b + s).kind == Comment
    ensures s[0] == '#'
  {
    var l := Lex(b + s);
    LexIffReads(b + s, l);
    var blanks, raw :| ReadsAs(b + s, blanks, raw, l);
    SameBlanks(b, s, blanks, raw + l.rest);
  }

  lemma QuotedReadBack(b: string, t: string, rest: string)
    requires AllBlank(b) && t != "" && IsQuote(t[0])
    requires var l := Lex(b + (t + rest)); l.kind == Quoted && l.value == t
    ensures CleanQuoted(t)
  {
    var text := b + (t + rest);
    var l := Lex(text);
    LexIffReads(text, l);
    var blanks, raw :| ReadsAs(text, blanks, raw, l);
    SameBlanks(b, t + rest, blanks, raw + l.rest);
    var q, body := t[0], Body(t);
    EscapeGrows(q, body);
    PrefixOfRaw(q, body, rest, l.rest);
    SelfEscapedIsClean(q, body);
  }

  lemma PrefixOfRaw(q: char, body: string, rest: string, rest': string)
    requires |Escape(q, body)| >= |body|
    requires [q] + body + [q] + rest == [q] + Escape(q, body) + [q] + rest'
    ensures body + [q] <= Escape(q, body) + [q]
  {
    var e := Escape(q, body);
    var whole := [q] + e + [q] + rest';
    assert whole[1..|body| + 2] == body + [q];
    assert whole[1..|e| + 2] == e + [q];
    assert body + [q] == (e + [q])[..|body| + 1];
  }

  /** If what is read at `t` is `t` again, then `t` is printable. */
  lemma ReadBackIsPrintable(b: string, t: string, rest: string)
    requires AllBlank(b)
    requires var k := Tokens(b + (t + rest))[0]; IsWord(k.kind) && k.value == t
    ensures PrintableToken(t)
  {
    var text := b + (t + rest);
    var from := FirstToken(text);
    var l := Lex(from);
    LexIffReads(from, l);
    if l.kind == Quoted {
      if Lex(text).kind == Comment {
        CommentStart(b, t + rest);
      }
      QuotedReadBack(b, t, rest);
    }
  }

  // --- whole configs ------------------------------------------------------------------------

  /** The token list begins with the sentence `ys`. */
  predicate Heads(ts: seq<Token>, ys: seq<Symbol>) {
    |ys| <= |ts| && Matches(ts[..|ys|], ys)
  }

  /** `ts` begins with the sentence `ys` exactly if `ok`, and is then followed by `us`. */
  predicate Piece(ts: seq<Token>, us: seq<Token>, ys: seq<Symbol>, ok: bool) {
    (Heads(ts, ys) <==> ok) && (ok ==> ts[|ys|..] == us)
  }

  lemma HeadsSplit(ts: seq<Token>, a: seq<Symbol>, b: seq<Symbol>)
    ensures Heads(ts, a + b) <==> Heads(ts, a) && Heads(ts[|a|..], b)
  {
    if Heads(ts, a + b) {
      MatchesSplit(ts[..|a + b|], a, b);
      assert ts[..|a + b|][..|a|] == ts[..|a|];
      assert ts[..|a + b|][|a|..] == ts[|a|..][..|b|];
    }
    if Heads(ts, a) && Heads(ts[|a|..], b) {
      forall i | 0 <= i < |a + b|
        ensures MatchesSymbol(ts[i], (a + b)[i])
      {
        if i < |a| {
          assert MatchesSymbol(ts[..|a|][i], a[i]);
        } else {
          assert MatchesSymbol(ts[|a|..][..|b|][i - |a|], b[i - |a|]);
        }
      }
    }
  }

  lemma Compose(ts: seq<Token>, us: seq<Token>, vs: seq<Token>, a: seq<Symbol>, b: seq<Symbol>, ok: bool, ok': bool)
    requires Piece(ts, us, a, ok) && (ok ==> Piece(us, vs, b, ok'))
    ensures Piece(ts, vs, a + b, ok && ok')
  {
    HeadsSplit(ts, a, b);
    if ok && ok' {
      assert ts[|a|..][|b|..] == ts[|a + b|..];
    }
  }

  lemma NewlineReads(rest: string)
    ensures Tokens("\n" + rest) == Tokens(rest)
  {
    ScanBlanks("\n", false, rest);
  }

  lemma MarkReads(b: string, p: string, y: Symbol, rest: string)
    requires AllBlank(b)
    requires (p == ";" && y == Semicolon) || (p == "{" && y == Open) || (p == "}" && y == Close)
    ensures Piece(Tokens(b + (p + rest)), Tokens(rest), [y], true)
  {
    var kind := if p == ";" then StatementEnd else if p == "{" then StartBlock else EndBlock;
    var l := Lexeme(kind, p, ' ' in b, rest);
    assert ReadsAs(b + (p + rest), b, p, l);
    ReadsDeterminesLex(b + (p + rest), b, p, l);
    assert Tokens(b + (p + rest)) == [Token(kind, p, l.ws)] + Tokens(rest);
  }

  lemma WordReads(b: string, t: string, first: bool, rest: string)
    requires AllBlank(b) && (first || ' ' in b) && rest != "" && EndsWord(rest[0])
    ensures Piece(Tokens(b + (t + rest)), Tokens(rest), [Word(t, first)], PrintableToken(t))
  {
    var ts := Tokens(b + (t + rest));
    if PrintableToken(t) {
      LexPrintable(b, t, rest);
      assert ts == [Token(WordKind(t), t, ' ' in b)] + Tokens(rest);
    }
    if Heads(ts, [Word(t, first)]) {
      assert MatchesSymbol(ts[..1][0], [Word(t, first)][0]);
      ReadBackIsPrintable(b, t, rest);
    }
  }

  predicate AllPrintable(tokens: seq<string>) {
    forall j :: 0 <= j < |tokens| ==> PrintableToken(tokens[j])
  }

  lemma AllPrintableCons(tokens: seq<string>)
    requires tokens != []
    ensures AllPrintable(tokens) <==> PrintableToken(tokens[0]) && AllPrintable(tokens[1..])
  {
    if PrintableToken(tokens[0]) && AllPrintable(tokens[1..]) {
      assert forall j :: 0 < j < |tokens| ==> tokens[j] == tokens[1..][j - 1];
    }
  }

  lemma NothingReads(ts: seq<Token>)
    ensures Piece(ts, ts, [], true)
  {
  }

  lemma {:induction false} SpacedReads(tokens: seq<string>, rest: string)
    requires rest != "" && EndsWord(rest[0])
    ensures Piece(Tokens(Spaced(tokens) + rest), Tokens(rest), Words(tokens, false), AllPrintable(tokens))
    decreases |tokens|
  {
    if tokens == [] {
      assert Spaced(tokens) + rest == rest;
      NothingReads(Tokens(rest));
    } else {
      var more := Spaced(tokens[1..]) + rest;
      assert Spaced(tokens) + rest == " " + (tokens[0] + more);
      WordReads(" ", tokens[0], false, more);
      SpacedReads(tokens[1..], rest);
      Compose(Tokens(Spaced(tokens) + rest), Tokens(more), Tokens(rest),
              [Word(tokens[0], false)], Words(tokens[1..], false),
              PrintableToken(tokens[0]), AllPrintable(tokens[1..]));
      AllPrintableCons(tokens);
    }
  }

  lemma IndentIsBlank(depth: int)
    ensures AllBlank(Indent(depth))
    decreases depth
  {
  }

  lemma WordsRead(depth: int, tokens: seq<string>, rest: string)
    requires tokens != [] && rest != "" && EndsWord(rest[0])
    ensures Piece(Tokens(Indent(depth) + Joined(tokens) + rest), Tokens(rest), Words(tokens, true),
                  AllPrintable(tokens))
  {
    var more := Spaced(tokens[1..]) + rest;
    var text := Indent(depth) + Joined(tokens) + rest;
    assert text == Indent(depth) + (tokens[0] + more);
    IndentIsBlank(depth);
    WordReads(Indent(depth), tokens[0], true, more);
    SpacedReads(tokens[1..], rest);
    Compose(Tokens(text), Tokens(more), Tokens(rest), [Word(tokens[0], true)], Words(tokens[1..], false),
            PrintableToken(tokens[0]), AllPrintable(tokens[1..]));
    AllPrintableCons(tokens);
  }

  predicate PrintableBody(s: Statement) { s.Block? ==> Printable(s.body) }

  lemma {:induction false} EndingReads(s: Statement, depth: int, rest: string)
    requires s.Block? ==> WellFormed(s.body)
    ensures Piece(Tokens(PrintEnding(s, depth) + rest), Tokens(rest), Ending(s), PrintableBody(s))
    decreases s, 0
  {
    if s.Simple? {
      SemicolonReads(rest);
    } else {
      var nl := "\n" + rest;
      var close := Indent(depth) + ("}" + nl);
      assert PrintEnding(s, depth) + rest == " {\n" + (Print(s.body, depth + 1) + close);
      PrintReads(s.body, depth + 1, close);
      BlockReads(s.body, depth, Print(s.body, depth + 1) + close, rest);
    }
  }

  lemma SemicolonReads(rest: string)
    ensures Piece(Tokens(";\n" + rest), Tokens(rest), [Semicolon], true)
  {
    var nl := "\n" + rest;
    NewlineReads(rest);
    assert ";\n" + rest == "" + (";" + nl);
    MarkReads("", ";", Semicolon, nl);
  }

  lemma OpenReads(inner: string)
    ensures Piece(Tokens(" {\n" + inner), Tokens(inner), [Open], true)
  {
    assert " {\n" + inner == " " + ("{" + ("\n" + inner));
    MarkReads(" ", "{", Open, "\n" + inner);
    NewlineReads(inner);
  }

  lemma CloseReads(depth: int, rest: string)
    ensures Piece(Tokens(Indent(depth) + ("}" + ("\n" + rest))), Tokens(rest), [Close], true)
  {
    IndentIsBlank(depth);
    MarkReads(Indent(depth), "}", Close, "\n" + rest);
    NewlineReads(rest);
  }

  lemma BlockReads(body: seq<Statement>, depth: int, inner: string, rest: string)
    requires var close := Indent(depth) + ("}" + ("\n" + rest));
             Piece(Tokens(inner), Tokens(close), Flatten(body), Printable(body))
    ensures Piece(Tokens(" {\n" + inner), Tokens(rest), [Open] + Flatten(body) + [Close], Printable(body))
  {
    var close := Indent(depth) + ("}" + ("\n" + rest));
    var ts, ok := Tokens(" {\n" + inner), Printable(body);
    OpenReads(inner);
    CloseReads(depth, rest);
    Compose(ts, Tokens(inner), Tokens(close), [Open], Flatten(body), true, ok);
    Compose(ts, Tokens(close), Tokens(rest), [Open] + Flatten(body), [Close], ok, true);
  }

  /** The printed form of `c`, before any other text, reads as the sentence of `c` exactly if `c` is
      printable, and then nothing of what follows is touched. */
  lemma {:induction false} PrintReads(c: seq<Statement>, depth: int, rest: string)
    requires WellFormed(c)
    ensures Piece(Tokens(Print(c, depth) + rest), Tokens(rest), Flatten(c), Printable(c))
    decreases c, 1
  {
    if c == [] {
      assert Print(c, depth) + rest == rest;
      NothingReads(Tokens(rest));
    } else {
      var s, more := c[0], Print(c[1..], depth) + rest;
      assert Print(c, depth) + rest == PrintStatement(s, depth) + more;
      StatementReads(s, depth, more);
      PrintReads(c[1..], depth, rest);
      Compose(Tokens(Print(c, depth) + rest), Tokens(more), Tokens(rest), FlattenStatement(s), Flatten(c[1..]),
              AllPrintable(s.tokens) && PrintableBody(s), Printable(c[1..]));
      PrintableCons(c);
    }
  }

  lemma {:induction false} StatementReads(s: Statement, depth: int, rest: string)
    requires s.tokens != [] && (s.Block? ==> WellFormed(s.body))
    ensures Piece(Tokens(PrintStatement(s, depth) + rest), Tokens(rest), FlattenStatement(s),
                  AllPrintable(s.tokens) && PrintableBody(s))
    decreases s, 1
  {
    var end := PrintEnding(s, depth) + rest;
    assert PrintStatement(s, depth) + rest == Indent(depth) + Joined(s.tokens) + end;
    WordsRead(depth, s.tokens, end);
    EndingReads(s, depth, rest);
    Compose(Tokens(PrintStatement(s, depth) + rest), Tokens(end), Tokens(rest), Words(s.tokens, true), Ending(s),
            AllPrintable(s.tokens), PrintableBody(s));
  }

  lemma PrintableCons(c: seq<Statement>)
    requires c != [] && c[0].tokens != []
    ensures Printable(c) <==> AllPrintable(c[0].tokens) && PrintableBody(c[0]) && Printable(c[1..])
  {
    if AllPrintable(c[0].tokens) && PrintableBody(c[0]) && Printable(c[1..]) {
      forall i | 0 <= i < |c|
        ensures c[i].tokens != [] && AllPrintable(c[i].tokens) && PrintableBody(c[i])
      {
        if i > 0 {
          assert c[i] == c[1..][i - 1];
        }
      }
    }
  }

  lemma {:induction false} PrintableIsWellFormed(c: seq<Statement>)
    requires Printable(c)
    ensures WellFormed(c)
    decreases c
  {
    forall i | 0 <= i < |c| && c[i].Block?
      ensures WellFormed(c[i].body)
    {
      PrintableIsWellFormed(c[i].body);
    }
  }

  /** Printing at any depth and parsing into an empty config gives the tree back exactly if every
      statement has a word and every word is a plain word or a quoted string with no backslash and no
      quote of its own kind inside. */
  lemma RoundTripIff(c: seq<Statement>, depth: int)
    ensures ParseInto([], Print(c, depth)) == Accepted(c) <==> Printable(c)
  {
    var text := Print(c, depth);
    ParseIffSentence(text, c);
    if Printable(c) {
      PrintableIsWellFormed(c);
    }
    if WellFormed(c) {
      PrintReads(c, depth, "");
      assert text + "" == text;
      var ts, n := Tokens(text), |Flatten(c)|;
      if Printable(c) {
        assert ts == ts[..n] + Tokens("");
        assert |Tokens("")| == 1 && Tokens("")[0].kind == EndOfFile;
        assert ts[..|ts| - 1] == ts[..n];
      }
      if IsSentence(text, c) {
        assert ts[..|ts| - 1] == ts[..n];
      }
    }
  }

  lemma QuotedStatementParses(q: char, body: string, c: seq<Statement>)
    requires IsQuote(q) && c == [Simple([[q] + body + [q]])]
    ensures ParseInto([], [q] + Escape(q, body) + [q] + ";") == Accepted(c)
  {
    var text, w := [q] + Escape(q, body) + [q] + ";", [q] + body + [q];
    var word, semi := Token(Quoted, w, false), Token(StatementEnd, ";", false);
    QuotedRoundTrip(q, body, ";");
    var l := Lexeme(StatementEnd, ";", false, "");
    assert ReadsAs(";", "", ";", l);
    ReadsDeterminesLex(";", "", ";", l);
    assert Tokens(";") == [semi] + Tokens(l.rest);
    assert Tokens(text) == [word] + Tokens(";");
    FlattenOneWord(c, w);
    var ts := Tokens(text);
    assert ts == [word, semi, Token(EndOfFile, "", false)];
    assert ts[..|ts| - 1] == [word, semi];
    ParseIffSentence(text, c);
  }

  /** Not every accepted config prints back: a quoted word whose body holds a backslash or its own
      quote is accepted when it is written with escapes, but `ToString` writes the body bare. */
  lemma ParsedButNotPrintable(q: char, body: string, depth: int)
    requires IsQuote(q) && ('\\' in body || q in body)
    ensures var c := [Simple([[q] + body + [q]])];
            && ParseInto([], [q] + Escape(q, body) + [q] + ";") == Accepted(c)
            && ParseInto([], Print(c, depth)) != Accepted(c)
  {
    var w := [q] + body + [q];
    var c := [Simple([w])];
    QuotedStatementParses(q, body, c);
    assert Body(w) == body;
    assert !PrintableToken(c[0].tokens[0]);
    RoundTripIff(c, depth);
  }
}
