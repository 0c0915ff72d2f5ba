/** The tokeniser of `NginxConfigParser::ParseToken`: a character-level state machine with escapes
    and one character of push-back, proved equal to a declarative reading of the text. */
module Lexer {

  // --- the vocabulary of include/config_parser.h -------------------------------------------

  datatype Kind =
    | Start | Normal | StartBlock | EndBlock | Comment | StatementEnd | EndOfFile | Error | Quoted

  datatype ScanState = Initial | InSingle | InDouble | InComment | InWord

  /** One call of `ParseToken`: the kind it returns, the text left in `*value`, whether
      `seenWhitespace` was set, and what is still unread. */
  datatype Lexeme = Lexeme(kind: Kind, value: string, ws: bool, rest: string)

  predicate IsBlank(c: char) { c == ' ' || c == '\t' || c == '\n' || c == '\r' }

  predicate IsQuote(c: char) { c == '"' || c == '\'' }

  predicate IsNewline(c: char) { c == '\n' || c == '\r' }

  /** The characters that end a plain word; neither '\r' nor '#' is among them. */
  predicate EndsWord(c: char) {
    c == ' ' || c == '\t' || c == '\n' || c == ';' || c == '{' || c == '}' || IsQuote(c)
  }

  /** The characters that may begin a plain word. */
  predicate StartsWord(c: char) { !EndsWord(c) && c != '#' && c != '\r' }

  function Quoting(q: char): (s: ScanState) { if q == '"' then InDouble else InSingle }

  // --- escapes ------------------------------------------------------------------------------

  /** `ProcessEsc` with its `inEscapeSeq` flag as an argument. */
  function Unescape(esc: bool, s: string): (r: string)
    decreases |s|
  {
    if s == "" then ""
    else if s[0] == '\\' && !esc then Unescape(true, s[1..])
    else [s[0]] + Unescape(false, s[1..])
  }

  /** How a character must be written between quotes `q`. */
  function EscapeChar(q: char, c: char): (r: string) {
    if c == '\\' || c == q then ['\\', c] else [c]
  }

  function Escape(q: char, s: string): (r: string) {
    if s == "" then "" else EscapeChar(q, s[0]) + Escape(q, s[1..])
  }

  method ProcessEsc(token: string) returns (processed: string)
    ensures processed == Unescape(false, token)
  {
    processed := "";
    var inEscapeSeq := false;
    for i := 0 to |token|
      invariant Unescape(false, token) == processed + Unescape(inEscapeSeq, token[i..])
    {
      var c := token[i];
      assert token[i..][1..] == token[i + 1..];
      if c == '\\' && !inEscapeSeq {
        inEscapeSeq := true;
      } else {
        inEscapeSeq := false;
        processed := processed + [c];
      }
    }
  }

  // --- the state machine --------------------------------------------------------------------

  /** The loop of `ParseToken`, one character a step. */
  function Scan(state: ScanState, esc: bool, value: string, ws: bool, input: string): (l: Lexeme)
    ensures |l.rest| <= |input|
    ensures state == Initial && l.kind != EndOfFile ==> |l.rest| < |input|
    decreases |input|
  {
    if input == "" then
      Lexeme(if state == InSingle || state == InDouble then Error else EndOfFile, value, ws, "")
    else
      var c, tail := input[0], input[1..];
      match state
      case Initial =>
        if c == '{' then Lexeme(StartBlock, [c], ws, tail)
        else if c == '}' then Lexeme(EndBlock, [c], ws, tail)
        else if c == '#' then Scan(InComment, esc, [c], ws, tail)
        else if c == '"' then Scan(InDouble, esc, [c], ws, tail)
        else if c == '\'' then Scan(InSingle, esc, [c], ws, tail)
        else if c == ';' then Lexeme(StatementEnd, [c], ws, tail)
        else if IsBlank(c) then Scan(Initial, esc, value, ws || c == ' ', tail)
        else Scan(InWord, esc, value + [c], ws, tail)
      case InSingle => ScanQuote('\'', esc, value, ws, input)
      case InDouble => ScanQuote('"', esc, value, ws, input)
      case InComment =>
        if IsNewline(c) then Lexeme(Comment, value, ws, tail)
        else Scan(InComment, esc, value + [c], ws, tail)
      case InWord =>
        if EndsWord(c) then Lexeme(Normal, value, ws, input)
        else Scan(InWord, esc, value + [c], ws, tail)
  }

  /** The two quote states, which differ only in their quote character. */
  function ScanQuote(q: char, esc: bool, value: string, ws: bool, input: string): (l: Lexeme)
    requires input != ""
    ensures |l.rest| < |input|
    decreases |input|, 0
  {
    var c, tail := input[0], input[1..];
    if esc then
      if c != '\\' && c != q then Lexeme(Error, value + [c], ws, tail)
      else Scan(Quoting(q), false, value + [c], ws, tail)
    else if c == '\\' then Scan(Quoting(q), true, value + [c], ws, tail)
    else if c == q then Lexeme(Quoted, Unescape(false, value + [c]), ws, tail)
    else Scan(Quoting(q), false, value + [c], ws, tail)
  }

  function Lex(s: string): (l: Lexeme)
    ensures l.kind != EndOfFile ==> |l.rest| < |s|
  {
    Scan(Initial, false, "", false, s)
  }

  method ParseToken(input: string, start: nat) returns (kind: Kind, value: string, seenWhitespace: bool, next: nat)
    requires start <= |input|
    ensures start <= next <= |input|
    ensures Lexeme(kind, value, seenWhitespace, input[next..]) == Lex(input[start..])
  {
    var state, inEscapeSeq := Initial, false;
    value, seenWhitespace, next := "", false, start;
    while next < |input|
      invariant start <= next <= |input|
      invariant Lex(input[start..]) == Scan(state, inEscapeSeq, value, seenWhitespace, input[next..])
    {
      var c := input[next];
      next := next + 1;
      assert input[next - 1..][0] == c && input[next - 1..][1..] == input[next..];
      match state
      case Initial =>
        if c == '{' { return StartBlock, [c], seenWhitespace, next; }
        if c == '}' { return EndBlock, [c], seenWhitespace, next; }
        if c == '#' { value, state := [c], InComment; }
        else if c == '"' { value, state := [c], InDouble; }
        else if c == '\'' { value, state := [c], InSingle; }
        else if c == ';' { return StatementEnd, [c], seenWhitespace, next; }
        else if IsBlank(c) { if c == ' ' { seenWhitespace := true; } }
        else { value, state := value + [c], InWord; }
      case InSingle =>
        value := value + [c];
        if inEscapeSeq {
          if c != '\\' && c != '\'' { return Error, value, seenWhitespace, next; }
          inEscapeSeq := false;
        } else if c == '\\' {
          inEscapeSeq := true;
        } else if c == '\'' {
          value := ProcessEsc(value);
          return Quoted, value, seenWhitespace, next;
        }
      case InDouble =>
        value := value + [c];
        if inEscapeSeq {
          if c != '\\' && c != '"' { return Error, value, seenWhitespace, next; }
          inEscapeSeq := false;
        } else if c == '\\' {
          inEscapeSeq := true;
        } else if c == '"' {
          value := ProcessEsc(value);
          return Quoted, value, seenWhitespace, next;
        }
      case InComment =>
        if IsNewline(c) { return Comment, value, seenWhitespace, next; }
        value := value + [c];
      case InWord =>
        if EndsWord(c) { return Normal, value, seenWhitespace, next - 1; }
        value := value + [c];
    }
    kind := if state == InSingle || state == InDouble then Error else EndOfFile;
  }

  // --- the declarative reading --------------------------------------------------------------

  predicate AllBlank(s: string) { forall i :: 0 <= i < |s| ==> IsBlank(s[i]) }

  predicate NoNewline(s: string) { forall i :: 0 <= i < |s| ==> !IsNewline(s[i]) }

  predicate NoEndsWord(s: string) { forall i :: 0 <= i < |s| ==> !EndsWord(s[i]) }

  predicate PlainWord(w: string) { w != "" && StartsWord(w[0]) && NoEndsWord(w[1..]) }

  predicate CommentText(w: string) { w != "" && w[0] == '#' && NoNewline(w[1..]) }

  /** A value that keeps its quotes around an arbitrary body. */
  predicate QuotedValue(v: string) { |v| >= 2 && IsQuote(v[0]) && v[|v| - 1] == v[0] }

  function Body(v: string): (b: string)
    requires QuotedValue(v)
  {
    v[1..|v| - 1]
  }

  /** `raw` is a quoted string cut short by the end of the text, or by a bad escape. */
  ghost predicate BadQuote(raw: string, rest: string) {
    exists q, b, u :: BadQuoteAs(raw, rest, q, b, u)
  }

  predicate BadQuoteAs(raw: string, rest: string, q: char, b: string, u: string) {
    && IsQuote(q) && raw == [q] + Escape(q, b) + u
    && BadTail(q, u, rest)
  }

  predicate BadTail(q: char, u: string, rest: string) {
    (rest == "" && (u == "" || u == "\\")) || (|u| == 2 && u[0] == '\\' && u[1] != '\\' && u[1] != q)
  }

  /** The text `raw` is what the lexeme `l` is made from, and it stops where `l` says. */
  ghost predicate RawOf(raw: string, l: Lexeme) {
    match l.kind
    case Start => false
    case StartBlock => raw == l.value == "{"
    case EndBlock => raw == l.value == "}"
    case StatementEnd => raw == l.value == ";"
    case Normal => raw == l.value && PlainWord(raw) && l.rest != "" && EndsWord(l.rest[0])
    case Comment => CommentText(l.value) && (raw == l.value + "\n" || raw == l.value + "\r")
    case Quoted => QuotedValue(l.value) && raw == [l.value[0]] + Escape(l.value[0], Body(l.value)) + [l.value[0]]
    case EndOfFile => l.rest == "" && raw == l.value && (raw == "" || PlainWord(raw) || CommentText(raw))
    case Error => raw == l.value && BadQuote(raw, l.rest)
  }

  ghost predicate ReadsAs(s: string, blanks: string, raw: string, l: Lexeme) {
    s == blanks + (raw + l.rest) && AllBlank(blanks) && (l.ws <==> ' ' in blanks) && RawOf(raw, l)
  }

  /** The reference: `s` begins with some blanks and then the text of `l`. */
  ghost predicate Reads(s: string, l: Lexeme) {
    exists blanks, raw :: ReadsAs(s, blanks, raw, l)
  }

  // --- the machine on each shape of text ----------------------------------------------------

  lemma {:induction false} ScanBlanks(b: string, ws: bool, s: string)
    requires AllBlank(b)
    ensures Scan(Initial, false, "", ws, b + s) == Scan(Initial, false, "", ws || ' ' in b, s)
  {
    if b == "" {
      assert b + s == s;
    } else {
      assert (b + s)[1..] == b[1..] + s;
      assert b == [b[0]] + b[1..];
      ScanBlanks(b[1..], ws || b[0] == ' ', s);
    }
  }

  lemma {:induction false} ScanInWord(w: string, value: string, ws: bool, s: string)
    requires NoEndsWord(w)
    ensures Scan(InWord, false, value, ws, w + s) == Scan(InWord, false, value + w, ws, s)
  {
    if w == "" {
      assert w + s == s && value + w == value;
    } else {
      assert (w + s)[1..] == w[1..] + s;
      assert value + [w[0]] + w[1..] == value + w;
      ScanInWord(w[1..], value + [w[0]], ws, s);
    }
  }

  lemma {:induction false} ScanInComment(w: string, value: string, ws: bool, s: string)
    requires NoNewline(w)
    ensures Scan(InComment, false, value, ws, w + s) == Scan(InComment, false, value + w, ws, s)
  {
    if w == "" {
      assert w + s == s && value + w == value;
    } else {
      assert (w + s)[1..] == w[1..] + s;
      assert value + [w[0]] + w[1..] == value + w;
      ScanInComment(w[1..], value + [w[0]], ws, s);
    }
  }

  lemma ScanEscapedChar(q: char, c: char, value: string, ws: bool, s: string)
    requires IsQuote(q)
    ensures Scan(Quoting(q), false, value, ws, EscapeChar(q, c) + s)
         == Scan(Quoting(q), false, value + EscapeChar(q, c), ws, s)
  {
    var e := EscapeChar(q, c);
    var text := e + s;
    assert Scan(Quoting(q), false, value, ws, text) == ScanQuote(q, false, value, ws, text);
    if |e| == 2 {
      var tail := text[1..];
      assert tail[0] == c && tail[1..] == s;
      assert Scan(Quoting(q), true, value + ['\\'], ws, tail) == ScanQuote(q, true, value + ['\\'], ws, tail);
      assert value + ['\\'] + [c] == value + e;
    } else {
      assert text[1..] == s;
    }
  }

  lemma {:induction false} ScanInQuote(q: char, b: string, value: string, ws: bool, s: string)
    requires IsQuote(q)
    ensures Scan(Quoting(q), false, value, ws, Escape(q, b) + s) == Scan(Quoting(q), false, value + Escape(q, b), ws, s)
  {
    if b == "" {
      assert Escape(q, b) + s == s && value + Escape(q, b) == value;
    } else {
      var e, t := EscapeChar(q, b[0]), Escape(q, b[1..]);
      assert Escape(q, b) + s == e + (t + s);
      ScanEscapedChar(q, b[0], value, ws, t + s);
      ScanInQuote(q, b[1..], value + e, ws, s);
      assert value + e + t == value + Escape(q, b);
    }
  }

  lemma UnescapeChar(q: char, c: char, s: string)
    ensures Unescape(false, EscapeChar(q, c) + s) == [c] + Unescape(false, s)
  {
    var text := EscapeChar(q, c) + s;
    if |EscapeChar(q, c)| == 2 {
      assert text[1..][0] == c && text[1..][1..] == s;
    } else {
      assert text[1..] == s;
    }
  }

  lemma {:induction false} UnescapeEscape(q: char, b: string, s: string)
    ensures Unescape(false, Escape(q, b) + s) == b + Unescape(false, s)
  {
    if b == "" {
      assert Escape(q, b) + s == s;
    } else {
      var t := Escape(q, b[1..]);
      assert Escape(q, b) + s == EscapeChar(q, b[0]) + (t + s);
      UnescapeChar(q, b[0], t + s);
      UnescapeEscape(q, b[1..], s);
      assert b == [b[0]] + b[1..];
    }
  }

  lemma ScanQuoted(q: char, b: string, ws: bool, rest: string)
    requires IsQuote(q)
    ensures Scan(Initial, false, "", ws, [q] + Escape(q, b) + [q] + rest) == Lexeme(Quoted, [q] + b + [q], ws, rest)
  {
    var text, raw := [q] + Escape(q, b) + [q] + rest, [q] + Escape(q, b) + [q];
    assert text[1..] == Escape(q, b) + ([q] + rest);
    ScanInQuote(q, b, [q], ws, [q] + rest);
    assert ([q] + rest)[1..] == rest;
    assert Scan(Initial, false, "", ws, text) == Lexeme(Quoted, Unescape(false, raw), ws, rest);
    assert raw[1..] == Escape(q, b) + [q];
    UnescapeEscape(q, b, [q]);
    assert Unescape(false, [q]) == [q] + Unescape(false, [q][1..]);
  }

  /** The bodies a quoted token may be written with and arbitrary strings correspond: writing the
      escaped body between quotes and lexing it gives the body back and stops right after. */
  lemma QuotedRoundTrip(q: char, b: string, rest: string)
    requires IsQuote(q)
    ensures Lex([q] + Escape(q, b) + [q] + rest) == Lexeme(Quoted, [q] + b + [q], false, rest)
  {
    ScanQuoted(q, b, false, rest);
  }

  /** Different bodies are written differently. */
  lemma EscapeInjective(q: char, a: string, b: string)
    requires Escape(q, a) == Escape(q, b)
    ensures a == b
  {
    UnescapeEscape(q, a, "");
    UnescapeEscape(q, b, "");
    assert Escape(q, a) + "" == Escape(q, a) && Escape(q, b) + "" == Escape(q, b);
  }

  /** What follows an opening quote is an escaped body and then the closing quote, the end of the
      text, or a backslash before something that cannot be escaped. */
  lemma {:induction false} QuoteShape(q: char, t: string) returns (b: string, u: string)
    requires IsQuote(q)
    ensures t == Escape(q, b) + u && QuoteTail(q, u)
    decreases |t|
  {
    if QuoteTail(q, t) {
      b, u := "", t;
    } else {
      var n := if t[0] == '\\' then 2 else 1;
      var c := t[n - 1];
      assert EscapeChar(q, c) == t[..n];
      var b';
      b', u := QuoteShape(q, t[n..]);
      b := [c] + b';
      assert b[1..] == b';
      assert t == t[..n] + t[n..];
    }
  }

  predicate QuoteTail(q: char, u: string) {
    u == "" || u[0] == q || u == "\\" || (|u| >= 2 && u[0] == '\\' && u[1] != '\\' && u[1] != q)
  }

  // --- the theorem --------------------------------------------------------------------------

  /** Whatever a text reads as, the machine returns. */
  lemma ReadsDeterminesLex(s: string, blanks: string, raw: string, l: Lexeme)
    requires ReadsAs(s, blanks, raw, l)
    ensures Lex(s) == l
  {
    ScanBlanks(blanks, false, raw + l.rest);
    LexAfterBlanks(raw, l);
  }

  lemma LexAfterBlanks(raw: string, l: Lexeme)
    requires RawOf(raw, l)
    ensures Scan(Initial, false, "", l.ws, raw + l.rest) == l
  {
    var t := raw + l.rest;
    match l.kind
    case StartBlock => assert t[1..] == l.rest;
    case EndBlock => assert t[1..] == l.rest;
    case StatementEnd => assert t[1..] == l.rest;
    case Normal => LexWord(raw, l.ws, l.rest);
    case Comment => LexCommentLine(l.value, raw[|raw| - 1], l.ws, l.rest);
    case Quoted => LexQuotedValue(l.value, l.ws, l.rest);
    case EndOfFile =>
      assert t == raw;
      if PlainWord(raw) {
        LexWord(raw, l.ws, "");
      } else if CommentText(raw) {
        LexComment(raw, l.ws, "");
      }
    case Error => LexBadQuote(raw, l.ws, l.rest);
  }

  lemma LexWord(w: string, ws: bool, rest: string)
    requires PlainWord(w)
    ensures Scan(Initial, false, "", ws, w + rest) == Scan(InWord, false, w, ws, rest)
  {
    assert (w + rest)[1..] == w[1..] + rest;
    ScanInWord(w[1..], [w[0]], ws, rest);
    assert "" + [w[0]] == [w[0]] && [w[0]] + w[1..] == w;
  }

  lemma LexComment(w: string, ws: bool, rest: string)
    requires CommentText(w)
    ensures Scan(Initial, false, "", ws, w + rest) == Scan(InComment, false, w, ws, rest)
  {
    assert (w + rest)[1..] == w[1..] + rest;
    ScanInComment(w[1..], [w[0]], ws, rest);
    assert [w[0]] + w[1..] == w;
  }

  lemma LexCommentLine(w: string, nl: char, ws: bool, rest: string)
    requires CommentText(w) && IsNewline(nl)
    ensures Scan(Initial, false, "", ws, w + [nl] + rest) == Lexeme(Comment, w, ws, rest)
  {
    assert w + [nl] + rest == w + ([nl] + rest);
    LexComment(w, ws, [nl] + rest);
    assert ([nl] + rest)[1..] == rest;
  }

  lemma LexQuotedValue(v: string, ws: bool, rest: string)
    requires QuotedValue(v)
    ensures Scan(Initial, false, "", ws, [v[0]] + Escape(v[0], Body(v)) + [v[0]] + rest) == Lexeme(Quoted, v, ws, rest)
  {
    ScanQuoted(v[0], Body(v), ws, rest);
    assert v == [v[0]] + Body(v) + [v[0]];
  }

  lemma ScanBadTail(q: char, u: string, value: string, ws: bool, rest: string)
    requires IsQuote(q) && BadTail(q, u, rest)
    ensures Scan(Quoting(q), false, value, ws, u + rest) == Lexeme(Error, value + u, ws, rest)
  {
    if u == "" {
      assert value + u == value && u + rest == "";
    } else {
      var tail := (u + rest)[1..];
      assert Scan(Quoting(q), false, value, ws, u + rest) == ScanQuote(q, false, value, ws, u + rest);
      if |u| == 2 {
        assert tail[0] == u[1] && tail[1..] == rest && value + ['\\'] + [u[1]] == value + u;
        assert Scan(Quoting(q), true, value + ['\\'], ws, tail) == ScanQuote(q, true, value + ['\\'], ws, tail);
      } else {
        assert tail == "" && value + ['\\'] == value + u;
        assert Scan(Quoting(q), true, value + ['\\'], ws, tail).kind == Error;
      }
    }
  }

  lemma LexOpeningQuote(q: char, ws: bool, s: string)
    requires IsQuote(q)
    ensures Scan(Initial, false, "", ws, [q] + s) == Scan(Quoting(q), false, [q], ws, s)
  {
    assert ([q] + s)[1..] == s;
  }

  lemma LexBadQuote(raw: string, ws: bool, rest: string)
    requires BadQuote(raw, rest)
    ensures Scan(Initial, false, "", ws, raw + rest) == Lexeme(Error, raw, ws, rest)
  {
    var q, b, u :| BadQuoteAs(raw, rest, q, b, u);
    LexBadQuoteAs(q, Escape(q, b), b, u, ws, rest);
  }

  lemma Regroup(a: string, b: string, c: string, d: string)
    ensures a + b + c + d == a + (b + (c + d))
  {
  }

  lemma LexBadQuoteAs(q: char, e: string, b: string, u: string, ws: bool, rest: string)
    requires IsQuote(q) && e == Escape(q, b) && BadTail(q, u, rest)
    ensures Scan(Initial, false, "", ws, [q] + e + u + rest) == Lexeme(Error, [q] + e + u, ws, rest)
  {
    Regroup([q], e, u, rest);
    LexOpeningQuote(q, ws, e + (u + rest));
    ScanInQuote(q, b, [q], ws, u + rest);
    ScanBadTail(q, u, [q] + e, ws, rest);
  }

  lemma FindReading(s: string) returns (blanks: string, raw: string, l: Lexeme)
    ensures ReadsAs(s, blanks, raw, l)
  {
    var n := BlankPrefix(s);
    blanks := s[..n];
    raw, l := ReadAfterBlanks(s[n..], ' ' in blanks);
    assert s == blanks + s[n..];
  }

  /** Every text reads as what the machine returns. */
  lemma EveryTextReads(s: string)
    ensures Reads(s, Lex(s))
  {
    var blanks, raw, l := FindReading(s);
    ReadsDeterminesLex(s, blanks, raw, l);
  }

  function BlankPrefix(s: string): (n: nat)
    ensures n <= |s| && AllBlank(s[..n])
    ensures n < |s| ==> !IsBlank(s[n])
  {
    if s == "" || !IsBlank(s[0]) then 0
    else
      var n := 1 + BlankPrefix(s[1..]);
      assert s[..n] == [s[0]] + s[1..][..n - 1];
      n
  }

  function WordPrefix(s: string): (n: nat)
    ensures n <= |s| && NoEndsWord(s[..n])
    ensures n < |s| ==> EndsWord(s[n])
  {
    if s == "" || EndsWord(s[0]) then 0
    else
      var n := 1 + WordPrefix(s[1..]);
      assert s[..n] == [s[0]] + s[1..][..n - 1];
      n
  }

  function LinePrefix(s: string): (n: nat)
    ensures n <= |s| && NoNewline(s[..n])
    ensures n < |s| ==> IsNewline(s[n])
  {
    if s == "" || IsNewline(s[0]) then 0
    else
      var n := 1 + LinePrefix(s[1..]);
      assert s[..n] == [s[0]] + s[1..][..n - 1];
      n
  }

  lemma ReadAfterBlanks(t: string, ws: bool) returns (raw: string, l: Lexeme)
    requires t != "" ==> !IsBlank(t[0])
    ensures t == raw + l.rest && l.ws == ws && RawOf(raw, l)
  {
    if t == "" {
      raw, l := "", Lexeme(EndOfFile, "", ws, "");
    } else if t[0] in "{};" {
      var kind := if t[0] == '{' then StartBlock else if t[0] == '}' then EndBlock else StatementEnd;
      raw, l := t[..1], Lexeme(kind, t[..1], ws, t[1..]);
    } else if t[0] == '#' {
      var n := 1 + LinePrefix(t[1..]);
      assert t[..n][1..] == t[1..][..n - 1];
      if n == |t| {
        assert t[..n] == t;
        raw, l := t, Lexeme(EndOfFile, t, ws, "");
      } else {
        assert t[n] == t[1..][n - 1];
        raw, l := t[..n + 1], Lexeme(Comment, t[..n], ws, t[n + 1..]);
        assert raw == t[..n] + [t[n]];
      }
    } else if IsQuote(t[0]) {
      raw, l := ReadQuote(t, ws);
    } else {
      var n := 1 + WordPrefix(t[1..]);
      assert t[..n][1..] == t[1..][..n - 1];
      raw := t[..n];
      if n == |t| {
        assert raw == t;
        l := Lexeme(EndOfFile, t, ws, "");
      } else {
        assert t[n] == t[1..][n - 1];
        l := Lexeme(Normal, raw, ws, t[n..]);
      }
    }
  }

  lemma ReadQuote(t: string, ws: bool) returns (raw: string, l: Lexeme)
    requires t != "" && IsQuote(t[0])
    ensures t == raw + l.rest && l.ws == ws && RawOf(raw, l)
  {
    var q := t[0];
    var b, u := QuoteShape(q, t[1..]);
    assert t == [q] + Escape(q, b) + u;
    if u != "" && u[0] == q {
      raw, l := ReadGoodQuote(q, b, u, ws);
    } else {
      var n := if |u| <= 1 then |u| else 2;
      raw := [q] + Escape(q, b) + u[..n];
      l := Lexeme(Error, raw, ws, u[n..]);
      assert u == u[..n] + u[n..];
      assert BadQuoteAs(raw, l.rest, q, b, u[..n]);
    }
  }

  lemma ReadGoodQuote(q: char, b: string, u: string, ws: bool) returns (raw: string, l: Lexeme)
    requires IsQuote(q) && u != "" && u[0] == q
    ensures [q] + Escape(q, b) + u == raw + l.rest && l.ws == ws && RawOf(raw, l)
  {
    raw, l := [q] + Escape(q, b) + [q], Lexeme(Quoted, [q] + b + [q], ws, u[1..]);
    assert u == [q] + u[1..];
    assert Body(l.value) == b;
  }

  /** `ParseToken` returns exactly what the text reads as: the state machine and the declarative
      reading are the same function, for every text. */
  lemma LexIffReads(s: string, l: Lexeme)
    ensures Lex(s) == l <==> Reads(s, l)
  {
    EveryTextReads(s);
    forall m | Reads(s, m)
      ensures Lex(s) == m
    {
      var blanks, raw :| ReadsAs(s, blanks, raw, m);
      ReadsDeterminesLex(s, blanks, raw, m);
    }
  }

  /** Every quoted token's raw text is the escape of its processed body. */
  lemma QuotedTextIsEscaped(s: string)
    requires Lex(s).kind == Quoted
    ensures var l := Lex(s);
            QuotedValue(l.value) &&
            exists blanks :: AllBlank(blanks) &&
              s == blanks + ([l.value[0]] + Escape(l.value[0], Body(l.value)) + [l.value[0]]) + l.rest
  {
    var l := Lex(s);
    LexIffReads(s, l);
    var blanks, raw :| ReadsAs(s, blanks, raw, l);
  }
}
