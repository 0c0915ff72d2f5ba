/** The parse tree of include/config_parser.h as a value, the grammar it belongs to, and the parser of
    `NginxConfigParser::Parse` as steps of a stack machine, which accepts exactly that grammar. */
module Grammar {
  import opened Lexer

  /** `Simple` is a statement whose `child_block_` is null, `Block` one with a child config. */
  datatype Statement = Simple(tokens: seq<string>) | Block(tokens: seq<string>, body: seq<Statement>)

  datatype Token = Token(kind: Kind, value: string, ws: bool)

  predicate IsWord(k: Kind) { k == Normal || k == Quoted }

  /** The kinds after which `Parse` reads no further. */
  predicate IsFinal(k: Kind) { k == EndOfFile || k == Error }

  /** The kinds after which a block may end. */
  predicate MayClose(k: Kind) { k == StatementEnd || k == StartBlock || k == EndBlock }

  /** The kinds after which the text may end. */
  predicate MayFinish(k: Kind) { k == StatementEnd || k == EndBlock || k == Start }

  // --- tokens of a text ---------------------------------------------------------------------

  /** The tokens `Parse` acts on: comments are dropped, and the list ends at the end of the text or
      at a lexical error. */
  function Tokens(s: string): (ts: seq<Token>)
    ensures ts != []
    ensures IsFinal(ts[|ts| - 1].kind)
    ensures forall i :: 0 <= i < |ts| - 1 ==> !IsFinal(ts[i].kind)
    decreases |s|
  {
    var l := Lex(s);
    if IsFinal(l.kind) then [Token(l.kind, l.value, l.ws)]
    else if l.kind == Comment then Tokens(l.rest)
    else [Token(l.kind, l.value, l.ws)] + Tokens(l.rest)
  }

  // --- the grammar --------------------------------------------------------------------------

  /** config ::= statement*, statement ::= word+ (';' | '{' config '}'). A symbol `Word` says
      whether the word opens its statement; only the others need a space before them. */
  datatype Symbol = Word(value: string, first: bool) | Semicolon | Open | Close

  function Words(tokens: seq<string>, first: bool): (ys: seq<Symbol>)
    ensures |ys| == |tokens|
  {
    if tokens == [] then [] else [Word(tokens[0], first)] + Words(tokens[1..], false)
  }

  function FlattenStatement(s: Statement): (ys: seq<Symbol>)
    decreases s, 1
  {
    Words(s.tokens, true) + Ending(s)
  }

  /** What ends a statement after its words. */
  function Ending(s: Statement): (ys: seq<Symbol>)
    decreases s, 0
  {
    if s.Simple? then [Semicolon] else [Open] + Flatten(s.body) + [Close]
  }

  /** The sentence whose derivation tree is `c`. */
  function Flatten(c: seq<Statement>): (ys: seq<Symbol>)
    decreases c, 0
  {
    if c == [] then [] else FlattenStatement(c[0]) + Flatten(c[1..])
  }

  predicate MatchesSymbol(t: Token, y: Symbol) {
    match y
    case Word(v, first) => IsWord(t.kind) && t.value == v && (first || t.ws)
    case Semicolon => t.kind == StatementEnd
    case Open => t.kind == StartBlock
    case Close => t.kind == EndBlock
  }

  predicate Matches(ts: seq<Token>, ys: seq<Symbol>) {
    |ts| == |ys| && forall i :: 0 <= i < |ts| ==> MatchesSymbol(ts[i], ys[i])
  }

  /** Every statement has at least one word. */
  predicate WellFormed(c: seq<Statement>)
    decreases c
  {
    forall i :: 0 <= i < |c| ==> c[i].tokens != [] && (c[i].Block? ==> WellFormed(c[i].body))
  }

  // --- the stack machine --------------------------------------------------------------------

  /** The stack of open configs, innermost first. A level holds its finished statements and the words
      of the statement being written; the block above it will be that statement's child. */
  datatype Stack = Empty | Level(done: seq<Statement>, open: seq<string>, below: Stack)

  function Height(k: Stack): nat { if k.Empty? then 0 else 1 + Height(k.below) }

  /** The locals of `Parse`: `config_stack`, `last_token_type` and `bracket_balance`. */
  datatype Machine = Machine(stack: Stack, last: Kind, balance: int)

  /** `Stuck`: the code would use `top()` or `pop()` on an empty stack. */
  datatype Outcome = Accepted(config: seq<Statement>) | Rejected | Stuck

  datatype Progress = Continue(m: Machine) | Done(outcome: Outcome)

  /** Every level that has a block above it has a statement to hang that block on. */
  predicate Chained(k: Stack) { k.Level? ==> k.open != [] && Chained(k.below) }

  /** What every step keeps: the stack is as high as the bracket balance says, and a statement is
      being written wherever the code reaches for one. */
  predicate Valid(m: Machine) {
    && Height(m.stack) == m.balance + 1
    && (m.stack.Empty? ==> m.last == EndBlock)
    && (m.stack.Level? ==> (IsWord(m.last) <==> m.stack.open != []) && Chained(m.stack.below))
  }

  function Init(config: seq<Statement>): (m: Machine)
    ensures Valid(m)
  {
    Machine(Level(config, [], Empty), Start, 0)
  }

  /** One turn of the loop of `Parse` on a token that is not a comment. */
  function Step(m: Machine, t: Token): (p: Progress)
    requires Valid(m)
    ensures p.Continue? ==> Valid(p.m)
  {
    if IsWord(t.kind) then
      if IsWord(m.last) && !t.ws then Done(Rejected)
      else if m.stack.Empty? then Done(Stuck)
      else Continue(Machine(m.stack.(open := m.stack.open + [t.value]), t.kind, m.balance))
    else if t.kind == StatementEnd then
      if !IsWord(m.last) then Done(Rejected)
      else Continue(Machine(Finish(m.stack, Simple(m.stack.open)), t.kind, m.balance))
    else if t.kind == StartBlock then
      if !IsWord(m.last) then Done(Rejected)
      else Continue(Machine(Level([], [], m.stack), t.kind, m.balance + 1))
    else if t.kind == EndBlock then
      if !MayClose(m.last) then Done(Rejected)
      else if m.stack.Empty? then Done(Stuck)
      else Continue(Machine(Pop(m.stack), t.kind, m.balance - 1))
    else if t.kind == EndOfFile then
      if !MayFinish(m.last) || m.balance != 0 then Done(Rejected)
      else Done(Accepted(m.stack.done))
    else Done(Rejected)
  }

  function Finish(k: Stack, s: Statement): Stack
    requires k.Level?
  {
    Level(k.done + [s], [], k.below)
  }

  function Pop(k: Stack): (r: Stack)
    requires k.Level?
    ensures Height(r) == Height(k) - 1
  {
    if k.below.Empty? then Empty else Finish(k.below, Block(k.below.open, k.done))
  }

  function Steps(m: Machine, ts: seq<Token>): (p: Progress)
    requires Valid(m)
    ensures p.Continue? ==> Valid(p.m)
    decreases |ts|
  {
    if ts == [] then Continue(m)
    else
      var p := Step(m, ts[0]);
      if p.Done? then p else Steps(p.m, ts[1..])
  }

  /** A machine on the tokens of a text. */
  function RunOn(m: Machine, s: string): (p: Progress)
    requires Valid(m)
  {
    Steps(m, Tokens(s))
  }

  /** One lexeme at a time: comments are skipped, other tokens are steps. */
  lemma RunOnNext(m: Machine, s: string)
    requires Valid(m)
    ensures var l := Lex(s);
            if l.kind == Comment then RunOn(m, s) == RunOn(m, l.rest)
            else
              var p := Step(m, Token(l.kind, l.value, l.ws));
              RunOn(m, s) == if p.Done? then p else RunOn(p.m, l.rest)
  {
    var l := Lex(s);
    if l.kind != Comment {
      assert Tokens(s)[0] == Token(l.kind, l.value, l.ws);
      assert !IsFinal(l.kind) ==> Tokens(s)[1..] == Tokens(l.rest);
    }
  }

  /** What `Parse` does with a text and a config that already holds `config`. */
  function ParseInto(config: seq<Statement>, s: string): (o: Outcome) {
    TokensEnd(Init(config), Tokens(s));
    RunOn(Init(config), s).outcome
  }

  lemma {:induction false} TokensEnd(m: Machine, ts: seq<Token>)
    requires Valid(m) && ts != [] && IsFinal(ts[|ts| - 1].kind)
    ensures Steps(m, ts).Done?
    decreases |ts|
  {
    var p := Step(m, ts[0]);
    if p.Continue? && |ts| > 1 {
      TokensEnd(p.m, ts[1..]);
    }
  }

  lemma {:induction false} StepsAppend(m: Machine, a: seq<Token>, b: seq<Token>)
    requires Valid(m)
    ensures Steps(m, a + b) == var p := Steps(m, a); if p.Done? then p else Steps(p.m, b)
    decreases |a|
  {
    if a == [] {
      assert a + b == b;
    } else {
      assert (a + b)[1..] == a[1..] + b;
      var p := Step(m, a[0]);
      if p.Continue? {
        StepsAppend(p.m, a[1..], b);
      }
    }
  }

  lemma {:induction false} NoEarlyEnd(m: Machine, ts: seq<Token>, i: nat)
    requires Valid(m) && Steps(m, ts).Done? && Steps(m, ts).outcome.Accepted? && i < |ts|
    requires forall j :: 0 <= j < |ts| - 1 ==> !IsFinal(ts[j].kind)
    ensures Steps(m, ts[..i]).Continue?
    decreases i
  {
    if i > 0 {
      assert ts[..i][1..] == ts[1..][..i - 1];
      NoEarlyEnd(Step(m, ts[0]).m, ts[1..], i - 1);
    }
  }

  lemma StepsOne(m: Machine, t: Token)
    requires Valid(m)
    ensures Steps(m, [t]) == Step(m, t)
  {
    assert [t][1..] == [];
  }

  // --- flattening ---------------------------------------------------------------------------

  lemma {:induction false} FlattenAppend(a: seq<Statement>, b: seq<Statement>)
    ensures Flatten(a + b) == Flatten(a) + Flatten(b)
    decreases |a|
  {
    if a == [] {
      assert a + b == b;
    } else {
      assert (a + b)[1..] == a[1..] + b;
      FlattenAppend(a[1..], b);
    }
  }

  lemma FlattenSnoc(c: seq<Statement>, s: Statement)
    ensures Flatten(c + [s]) == Flatten(c) + FlattenStatement(s)
  {
    FlattenAppend(c, [s]);
    assert Flatten([s]) == FlattenStatement(s) + Flatten([s][1..]);
  }

  lemma {:induction false} WordsSnoc(tokens: seq<string>, first: bool, w: string)
    ensures Words(tokens + [w], first) == Words(tokens, first) + [Word(w, first && tokens == [])]
    decreases |tokens|
  {
    if tokens == [] {
      assert (tokens + [w])[1..] == [];
    } else {
      assert (tokens + [w])[1..] == tokens[1..] + [w];
      WordsSnoc(tokens[1..], false, w);
    }
  }

  // --- soundness: what was consumed is the flattening of what was built -----------------------

  /** The sentence prefix the machine has consumed, read off its stack. */
  function Emitted(k: Stack): (ys: seq<Symbol>)
    decreases k, 0
  {
    if k.Empty? then []
    else Below(k.below) + (Flatten(k.done) + Words(k.open, true))
  }

  /** The symbol a token stands for in a given state. */
  function SymbolOf(m: Machine, t: Token): Symbol {
    if IsWord(t.kind) then Word(t.value, !IsWord(m.last))
    else if t.kind == StatementEnd then Semicolon
    else if t.kind == StartBlock then Open
    else Close
  }

  function Below(k: Stack): (ys: seq<Symbol>)
    decreases k, 1
  {
    if k.Empty? then [] else Emitted(k) + [Open]
  }

  lemma FinishEmits(k: Stack, s: Statement)
    requires k.Level? && s.tokens == k.open
    ensures Emitted(Finish(k, s)) == Emitted(k) + Ending(s)
  {
    var b, f, w, e := Below(k.below), Flatten(k.done), Words(k.open, true), Ending(s);
    FlattenSnoc(k.done, s);
    assert Flatten(k.done + [s]) + Words([], true) == f + (w + e);
    assert b + (f + (w + e)) == b + (f + w) + e;
  }

  lemma WordEmits(k: Stack, w: string)
    requires k.Level?
    ensures Emitted(k.(open := k.open + [w])) == Emitted(k) + [Word(w, k.open == [])]
  {
    WordsSnoc(k.open, true, w);
    var b, f, ws, y := Below(k.below), Flatten(k.done), Words(k.open, true), [Word(w, k.open == [])];
    assert b + (f + (ws + y)) == b + (f + ws) + y;
  }

  lemma OpenEmits(k: Stack)
    requires k.Level?
    ensures Emitted(Level([], [], k)) == Emitted(k) + [Open]
  {
    assert Flatten([]) == [] && Words([], true) == [];
  }

  lemma CloseEmits(k: Stack)
    requires k.Level? && k.open == [] && k.below.Level?
    ensures Emitted(Pop(k)) == Emitted(k) + [Close]
  {
    var e, f := Emitted(k.below), Flatten(k.done);
    assert Words(k.open, true) == [];
    FinishEmits(k.below, Block(k.below.open, k.done));
    assert e + ([Open] + f + [Close]) == (e + [Open]) + (f + []) + [Close];
  }

  lemma StepEmits(m: Machine, t: Token)
    requires Valid(m) && m.stack.Level? && Step(m, t).Continue? && Step(m, t).m.stack.Level?
    ensures MatchesSymbol(t, SymbolOf(m, t))
    ensures Emitted(Step(m, t).m.stack) == Emitted(m.stack) + [SymbolOf(m, t)]
  {
    var k := m.stack;
    if IsWord(t.kind) {
      WordEmits(k, t.value);
    } else if t.kind == StatementEnd {
      FinishEmits(k, Simple(k.open));
    } else if t.kind == StartBlock {
      OpenEmits(k);
    } else {
      CloseEmits(k);
    }
  }

  /** Every finished statement is well formed. */
  predicate StackWellFormed(k: Stack) { k.Level? ==> WellFormed(k.done) && StackWellFormed(k.below) }

  lemma StepKeepsWellFormed(m: Machine, t: Token)
    requires Valid(m) && StackWellFormed(m.stack) && Step(m, t).Continue?
    ensures StackWellFormed(Step(m, t).m.stack)
  {
  }

  /** Once a '}' has emptied the stack no run is accepted. */
  lemma EmptyStackEnds(m: Machine, t: Token)
    requires Valid(m) && m.stack.Empty?
    ensures Step(m, t) == Done(Rejected) || Step(m, t) == Done(Stuck)
  {
  }

  lemma OnlyLevel(k: Stack)
    requires Height(k) == 1
    ensures k.Level? && k.below.Empty?
    ensures k.open == [] ==> Emitted(k) == Flatten(k.done)
  {
    assert k.below.Level? ==> Height(k.below) == 1 + Height(k.below.below);
    assert k.open == [] ==> Words(k.open, true) == [];
  }

  /** A run that has not ended consumed exactly the symbols by which its stack has grown. */
  lemma {:induction false} StepsEmit(m: Machine, ts: seq<Token>) returns (ys: seq<Symbol>)
    requires Valid(m) && m.stack.Level? && Steps(m, ts).Continue? && Steps(m, ts).m.stack.Level?
    ensures Emitted(Steps(m, ts).m.stack) == Emitted(m.stack) + ys && Matches(ts, ys)
    decreases |ts|
  {
    if ts == [] {
      ys := [];
    } else {
      var m1 := Step(m, ts[0]).m;
      if m1.stack.Empty? {
        EmptyStackEnds(m1, ts[1]);
      }
      StepEmits(m, ts[0]);
      var ys' := StepsEmit(m1, ts[1..]);
      ys := [SymbolOf(m, ts[0])] + ys';
      Extend(Emitted(m.stack), SymbolOf(m, ts[0]), ys', ts);
    }
  }

  lemma Extend(e: seq<Symbol>, y: Symbol, ys: seq<Symbol>, ts: seq<Token>)
    requires ts != [] && MatchesSymbol(ts[0], y) && Matches(ts[1..], ys)
    ensures e + [y] + ys == e + ([y] + ys) && Matches(ts, [y] + ys)
  {
    MatchesCons(ts, y, ys);
  }

  lemma {:induction false} StepsKeepWellFormed(m: Machine, ts: seq<Token>)
    requires Valid(m) && StackWellFormed(m.stack) && Steps(m, ts).Continue?
    ensures StackWellFormed(Steps(m, ts).m.stack)
    decreases |ts|
  {
    if ts != [] {
      StepKeepsWellFormed(m, ts[0]);
      StepsKeepWellFormed(Step(m, ts[0]).m, ts[1..]);
    }
  }

  lemma MatchesCons(ts: seq<Token>, y: Symbol, ys: seq<Symbol>)
    requires ts != []
    ensures Matches(ts, [y] + ys) <==> MatchesSymbol(ts[0], y) && Matches(ts[1..], ys)
  {
    if Matches(ts, [y] + ys) {
      assert MatchesSymbol(ts[0], ([y] + ys)[0]);
      forall i | 0 <= i < |ys|
        ensures MatchesSymbol(ts[1..][i], ys[i])
      {
        assert MatchesSymbol(ts[i + 1], ([y] + ys)[i + 1]);
      }
    }
  }

  // --- completeness: every sentence is accepted with its tree --------------------------------

  /** The machine after it has read `c` between two statements of its top level. */
  function After(m: Machine, c: seq<Statement>): Machine
    requires m.stack.Level?
  {
    Machine(m.stack.(done := m.stack.done + c),
            if c == [] then m.last else if c[|c| - 1].Simple? then StatementEnd else EndBlock,
            m.balance)
  }

  lemma {:induction false} MatchesSplit(ts: seq<Token>, a: seq<Symbol>, b: seq<Symbol>)
    requires Matches(ts, a + b)
    ensures |a| <= |ts| && Matches(ts[..|a|], a) && Matches(ts[|a|..], b)
  {
    forall i | 0 <= i < |a|
      ensures MatchesSymbol(ts[i], a[i])
    {
      assert (a + b)[i] == a[i];
    }
    forall i | 0 <= i < |b|
      ensures MatchesSymbol(ts[|a| + i], b[i])
    {
      assert (a + b)[|a| + i] == b[i];
    }
  }

  /** A machine reads the words of a statement, the first of them if none has been read. */
  lemma {:induction false} ReadWords(m: Machine, words: seq<string>, ts: seq<Token>)
    requires Valid(m) && m.stack.Level? && Matches(ts, Words(words, !IsWord(m.last)))
    ensures Steps(m, ts).Continue?
    ensures var m' := Steps(m, ts).m;
            m'.stack == m.stack.(open := m.stack.open + words) && m'.balance == m.balance
    ensures words == [] ==> Steps(m, ts).m == m
    decreases |words|
  {
    if words == [] {
      assert m.stack.open + words == m.stack.open;
    } else {
      var first := !IsWord(m.last);
      MatchesCons(ts, Word(words[0], first), Words(words[1..], false));
      var m1 := Step(m, ts[0]).m;
      ReadWords(m1, words[1..], ts[1..]);
      assert m.stack.open + [words[0]] + words[1..] == m.stack.open + words;
    }
  }

  lemma {:induction false} ReadStatement(m: Machine, s: Statement, ts: seq<Token>)
    requires Valid(m) && m.stack.Level? && !IsWord(m.last)
    requires WellFormed([s]) && Matches(ts, FlattenStatement(s))
    ensures Steps(m, ts) == Continue(After(m, [s]))
    decreases s, 1
  {
    assert [s][0] == s;
    var n := |s.tokens|;
    MatchesSplit(ts, Words(s.tokens, true), Ending(s));
    ReadWords(m, s.tokens, ts[..n]);
    var m1 := Steps(m, ts[..n]).m;
    assert m.stack.open + s.tokens == s.tokens;
    ReadEnding(m1, s, ts[n..]);
    assert After(m, [s]).stack == Finish(m1.stack, s);
    assert ts == ts[..n] + ts[n..];
    StepsAppend(m, ts[..n], ts[n..]);
  }

  lemma {:induction false} ReadEnding(m: Machine, s: Statement, ts: seq<Token>)
    requires Valid(m) && m.stack.Level? && IsWord(m.last) && m.stack.open == s.tokens
    requires s.Block? ==> WellFormed(s.body)
    requires Matches(ts, Ending(s))
    ensures Steps(m, ts) ==
            Continue(Machine(Finish(m.stack, s), if s.Simple? then StatementEnd else EndBlock, m.balance))
    decreases s, 0
  {
    if s.Simple? {
      assert ts == [ts[0]] && MatchesSymbol(ts[0], Ending(s)[0]);
      StepsOne(m, ts[0]);
    } else {
      ReadBlock(m, s.body, ts);
    }
  }

  /** The tokens of a block are its braces around the tokens of its body. */
  lemma BlockTokens(ts: seq<Token>, inner: seq<Symbol>)
    requires Matches(ts, [Open] + inner + [Close])
    ensures var n := |ts| - 1;
            n == 1 + |inner| && ts[0].kind == StartBlock && ts[n].kind == EndBlock && Matches(ts[1..n], inner)
            && ts[1..] == ts[1..n] + [ts[n]]
  {
    var ys, n := [Open] + inner + [Close], |ts| - 1;
    assert MatchesSymbol(ts[0], ys[0]) && MatchesSymbol(ts[n], ys[n]);
    forall i | 0 <= i < |inner|
      ensures MatchesSymbol(ts[1..n][i], inner[i])
    {
      assert MatchesSymbol(ts[i + 1], ys[i + 1]);
    }
  }

  lemma {:induction false} ReadBlock(m: Machine, body: seq<Statement>, ts: seq<Token>)
    requires Valid(m) && IsWord(m.last) && WellFormed(body)
    requires Matches(ts, [Open] + Flatten(body) + [Close])
    ensures Steps(m, ts) == Continue(Machine(Finish(m.stack, Block(m.stack.open, body)), EndBlock, m.balance))
    decreases body, 2
  {
    var n := |ts| - 1;
    BlockTokens(ts, Flatten(body));
    var m1 := Step(m, ts[0]).m;
    ReadAll(m1, body, ts[1..n]);
    StepsAppend(m1, ts[1..n], [ts[n]]);
    CloseBlock(m, m1, After(m1, body), body, ts[n]);
  }

  lemma CloseBlock(m: Machine, m1: Machine, m2: Machine, body: seq<Statement>, close: Token)
    requires Valid(m) && IsWord(m.last) && close.kind == EndBlock
    requires m1 == Machine(Level([], [], m.stack), StartBlock, m.balance + 1) && m2 == After(m1, body) && Valid(m2)
    ensures Steps(m2, [close]) == Continue(Machine(Finish(m.stack, Block(m.stack.open, body)), EndBlock, m.balance))
  {
    StepsOne(m2, close);
    assert [] + body == body;
  }

  lemma {:induction false} ReadAll(m: Machine, c: seq<Statement>, ts: seq<Token>)
    requires Valid(m) && m.stack.Level? && !IsWord(m.last)
    requires WellFormed(c) && Matches(ts, Flatten(c))
    ensures Steps(m, ts) == Continue(After(m, c))
    decreases c, 1
  {
    if c == [] {
      assert m.stack.done + c == m.stack.done;
    } else {
      var n := |FlattenStatement(c[0])|;
      MatchesSplit(ts, FlattenStatement(c[0]), Flatten(c[1..]));
      ReadStatement(m, c[0], ts[..n]);
      assert m.stack.done + [c[0]] + c[1..] == m.stack.done + c;
      ReadAll(After(m, [c[0]]), c[1..], ts[n..]);
      assert After(After(m, [c[0]]), c[1..]) == After(m, c);
      assert ts == ts[..n] + ts[n..];
      StepsAppend(m, ts[..n], ts[n..]);
    }
  }

  // --- the theorems -------------------------------------------------------------------------

  /** A text that `Parse` reads to the end, whose comment-free tokens are the sentence of `c`. */
  predicate IsSentence(s: string, c: seq<Statement>) {
    var ts := Tokens(s);
    WellFormed(c) && ts[|ts| - 1].kind == EndOfFile && Matches(ts[..|ts| - 1], Flatten(c))
  }

  lemma SentenceAccepted(m: Machine, ts: seq<Token>, c: seq<Statement>)
    requires m == Init([])
    requires ts != [] && ts[|ts| - 1].kind == EndOfFile
    requires WellFormed(c) && Matches(ts[..|ts| - 1], Flatten(c))
    ensures Steps(m, ts) == Done(Accepted(c))
  {
    var n := |ts| - 1;
    ReadAll(m, c, ts[..n]);
    assert [] + c == c;
    StepsOne(After(m, c), ts[n]);
    assert ts == ts[..n] + [ts[n]];
    StepsAppend(m, ts[..n], [ts[n]]);
  }

  /** An accepted run ends at the end of the text with `c`, complete, on a stack of one. */
  lemma AcceptedRun(m: Machine, ts: seq<Token>, c: seq<Statement>)
    requires m == Init([]) && Steps(m, ts) == Done(Accepted(c))
    requires forall i :: 0 <= i < |ts| - 1 ==> !IsFinal(ts[i].kind)
    ensures ts != [] && ts[|ts| - 1].kind == EndOfFile
    ensures var p := Steps(m, ts[..|ts| - 1]); p.Continue? && p.m.stack == Level(c, [], Empty)
  {
    var n := |ts| - 1;
    NoEarlyEnd(m, ts, n);
    StepsAppend(m, ts[..n], [ts[n]]);
    assert ts == ts[..n] + [ts[n]];
    var m1 := Steps(m, ts[..n]).m;
    StepsOne(m1, ts[n]);
    OnlyLevel(m1.stack);
  }

  lemma AcceptedSentence(m: Machine, ts: seq<Token>, c: seq<Statement>)
    requires m == Init([]) && Steps(m, ts).Continue? && Steps(m, ts).m.stack == Level(c, [], Empty)
    ensures WellFormed(c) && Matches(ts, Flatten(c))
  {
    StepsKeepWellFormed(m, ts);
    var ys := StepsEmit(m, ts);
    OnlyLevel(m.stack);
    OnlyLevel(Steps(m, ts).m.stack);
    assert Emitted(m.stack) + ys == ys;
  }

  /** `Parse` accepts exactly the sentences of the grammar, and builds exactly their trees. */
  lemma ParseIffSentence(s: string, c: seq<Statement>)
    ensures ParseInto([], s) == Accepted(c) <==> IsSentence(s, c)
  {
    var m, ts := Init([]), Tokens(s);
    TokensEnd(m, ts);
    if ParseInto([], s) == Accepted(c) {
      AcceptedRun(m, ts, c);
      AcceptedSentence(m, ts[..|ts| - 1], c);
    }
    if IsSentence(s, c) {
      SentenceAccepted(m, ts, c);
    }
  }

  function Prepend(config: seq<Statement>, o: Outcome): Outcome {
    if o.Accepted? then Accepted(config + o.config) else o
  }

  /** The same stack with `config` in front of its outermost level. */
  function Lift(config: seq<Statement>, k: Stack): Stack {
    if k.Empty? then Empty
    else if k.below.Empty? then k.(done := config + k.done)
    else k.(below := Lift(config, k.below))
  }

  function LiftMachine(config: seq<Statement>, m: Machine): Machine { m.(stack := Lift(config, m.stack)) }

  lemma LiftFinish(config: seq<Statement>, k: Stack, s: Statement)
    requires k.Level?
    ensures Lift(config, Finish(k, s)) == Finish(Lift(config, k), s)
  {
    assert config + (k.done + [s]) == config + k.done + [s];
  }

  lemma LiftWord(config: seq<Statement>, k: Stack, w: string)
    requires k.Level?
    ensures Lift(config, k).Level? && Lift(config, k).open == k.open
    ensures Lift(config, Level([], [], k)) == Level([], [], Lift(config, k))
    ensures Lift(config, k.(open := k.open + [w])) == Lift(config, k).(open := k.open + [w])
  {
  }

  lemma LiftPop(config: seq<Statement>, k: Stack)
    requires k.Level?
    ensures Lift(config, Pop(k)) == Pop(Lift(config, k))
  {
    if k.below.Level? {
      LiftFinish(config, k.below, Block(k.below.open, k.done));
    }
  }

  lemma StepLift(config: seq<Statement>, m: Machine, t: Token)
    requires Valid(m) && Valid(LiftMachine(config, m))
    ensures var p, q := Step(m, t), Step(LiftMachine(config, m), t);
            if p.Done? then q == Done(Prepend(config, p.outcome)) else q == Continue(LiftMachine(config, p.m))
  {
    var k := m.stack;
    if k.Level? {
      if Height(k) == 1 {
        OnlyLevel(k);
      }
      LiftWord(config, k, t.value);
      LiftFinish(config, k, Simple(k.open));
      LiftPop(config, k);
    }
  }

  lemma {:induction false} StepsLift(config: seq<Statement>, m: Machine, ts: seq<Token>)
    requires Valid(m) && Valid(LiftMachine(config, m))
    ensures var p, q := Steps(m, ts), Steps(LiftMachine(config, m), ts);
            if p.Done? then q == Done(Prepend(config, p.outcome)) else q == Continue(LiftMachine(config, p.m))
    decreases |ts|
  {
    if ts != [] {
      StepLift(config, m, ts[0]);
      var p := Step(m, ts[0]);
      if p.Continue? {
        StepsLift(config, p.m, ts[1..]);
      }
    }
  }

  /** Parsing into a config that already has statements appends to them and does nothing else. */
  lemma ParseAppends(config: seq<Statement>, s: string)
    ensures ParseInto(config, s) == Prepend(config, ParseInto([], s))
  {
    var m := Init([]);
    assert config + [] == config;
    assert LiftMachine(config, m) == Init(config);
    TokensEnd(m, Tokens(s));
    StepsLift(config, m, Tokens(s));
  }

  // --- the empty stack ----------------------------------------------------------------------

  lemma {:induction false} StuckStep(m: Machine, ts: seq<Token>) returns (n: nat)
    requires Valid(m) && Steps(m, ts) == Done(Stuck)
    ensures n < |ts| && Steps(m, ts[..n]).Continue? && Step(Steps(m, ts[..n]).m, ts[n]) == Done(Stuck)
    decreases |ts|
  {
    var p := Step(m, ts[0]);
    if p.Done? {
      n := 0;
    } else {
      var n' := StuckStep(p.m, ts[1..]);
      n := n' + 1;
      assert ts[..n][1..] == ts[1..][..n'];
    }
  }

  /** The only way to the empty stack: a '}' where nothing is open. */
  lemma EmptiesAt(m: Machine, t: Token)
    requires Valid(m) && m.stack.Level? && Step(m, t).Continue? && Step(m, t).m.stack.Empty?
    ensures t.kind == EndBlock && MayClose(m.last) && m.stack == Level(m.stack.done, [], Empty)
  {
  }

  lemma LastStep(m: Machine, front: seq<Token>, t: Token)
    requires Valid(m) && Steps(m, front + [t]).Continue?
    ensures Steps(m, front).Continue? && Steps(m, front + [t]) == Step(Steps(m, front).m, t)
  {
    StepsAppend(m, front, [t]);
    StepsOne(Steps(m, front).m, t);
  }

  /** A '}' too many after a complete config, and then a word or another '}'. */
  predicate ClosesTwice(ts: seq<Token>, i: nat, c: seq<Statement>) {
    && i + 1 < |ts| && c != [] && WellFormed(c) && Matches(ts[..i], Flatten(c))
    && ts[i].kind == EndBlock && (IsWord(ts[i + 1].kind) || ts[i + 1].kind == EndBlock)
  }

  /** A run that has come to the empty stack came from a complete config. */
  lemma EmptyStackCameFrom(m: Machine, ts: seq<Token>) returns (c: seq<Statement>)
    requires m == Init([]) && Steps(m, ts).Continue? && Steps(m, ts).m.stack.Empty?
    ensures ts != [] && c != [] && WellFormed(c) && Matches(ts[..|ts| - 1], Flatten(c)) && ts[|ts| - 1].kind == EndBlock
  {
    var n := |ts| - 1;
    if ts == [] {
      NothingRead(m, ts);
    }
    var front := ts[..n];
    assert ts == front + [ts[n]];
    LastStep(m, front, ts[n]);
    var m1 := Steps(m, front).m;
    if m1.stack.Empty? {
      EmptyStackEnds(m1, ts[n]);
    }
    EmptiesAt(m1, ts[n]);
    c := m1.stack.done;
    AcceptedSentence(m, front, c);
    if c == [] {
      NothingRead(m, front);
    }
  }

  lemma NothingRead(m: Machine, ts: seq<Token>)
    requires Valid(m) && |ts| == 0
    ensures Steps(m, ts) == Continue(m)
  {
  }

  lemma SticksAfter(m: Machine, ts: seq<Token>) returns (i: nat, c: seq<Statement>)
    requires m == Init([]) && Steps(m, ts) == Done(Stuck)
    ensures ClosesTwice(ts, i, c)
  {
    var n := StuckStep(m, ts);
    c := EmptyStackCameFrom(m, ts[..n]);
    i := n - 1;
    assert ts[..n][..i] == ts[..i];
  }

  lemma ClosesTwiceSticks(m: Machine, ts: seq<Token>, i: nat, c: seq<Statement>)
    requires m == Init([]) && ClosesTwice(ts, i, c)
    ensures Steps(m, ts) == Done(Stuck)
  {
    ReadAll(m, c, ts[..i]);
    var m1 := After(m, c);
    StepsOne(m1, ts[i]);
    assert ts == ts[..i] + ts[i..];
    StepsAppend(m, ts[..i], ts[i..]);
    assert ts[i..][1..][0] == ts[i + 1];
  }

  lemma SticksIff(m: Machine, ts: seq<Token>)
    requires m == Init([])
    ensures Steps(m, ts) == Done(Stuck) <==> exists i: nat, c :: ClosesTwice(ts, i, c)
  {
    if Steps(m, ts) == Done(Stuck) {
      var i, c := SticksAfter(m, ts);
    }
    if i: nat, c :| ClosesTwice(ts, i, c) {
      ClosesTwiceSticks(m, ts, i, c);
    }
  }

  /** `Parse` uses the empty stack exactly if the text is a complete config of at least one statement, then
      a '}' that closes nothing, and then a word or another '}'. */
  lemma StuckIff(config: seq<Statement>, s: string)
    ensures ParseInto(config, s) == Stuck <==> exists i: nat, c :: ClosesTwice(Tokens(s), i, c)
  {
    var none, m := [], Init([]);
    ParseAppends(config, s);
    OutcomeOf(none, m, s);
    SticksIff(m, Tokens(s));
  }

  lemma OutcomeOf(config: seq<Statement>, m: Machine, s: string)
    requires m == Init(config)
    ensures Steps(m, Tokens(s)) == Done(ParseInto(config, s))
  {
    TokensEnd(m, Tokens(s));
  }

  lemma FlattenOneWord(c: seq<Statement>, w: string)
    requires c == [Simple([w])]
    ensures Flatten(c) == [Word(w, true), Semicolon]
  {
    var s := c[0];
    assert c[1..] == [] && s.tokens[1..] == [];
    assert Words(s.tokens, true) == [Word(w, true)] + Words(s.tokens[1..], false) == [Word(w, true)];
    assert Ending(s) == [Semicolon];
    assert Flatten(c) == FlattenStatement(s) + Flatten(c[1..]) == FlattenStatement(s) + [];
  }

  lemma TokenReads(s: string, raw: string, kind: Kind, rest: string)
    requires s == raw + rest && kind != Comment && !IsFinal(kind) && RawOf(raw, Lexeme(kind, raw, false, rest))
    ensures Tokens(s) == [Token(kind, raw, false)] + Tokens(rest)
  {
    var l := Lexeme(kind, raw, false, rest);
    assert ReadsAs(s, "", raw, l);
    ReadsDeterminesLex(s, "", raw, l);
  }

  /** For example: a statement of one word, a stray '}', and another word. */
  lemma StrayBraceSticks(config: seq<Statement>, w: string, v: string, rest: string)
    requires PlainWord(w) && PlainWord(v) && rest != "" && EndsWord(rest[0])
    ensures ParseInto(config, w + (";" + ("}" + (v + rest)))) == Stuck
  {
    var s3 := v + rest;
    var s2 := "}" + s3;
    var s1 := ";" + s2;
    TokenReads(w + s1, w, Normal, s1);
    TokenReads(s1, ";", StatementEnd, s2);
    TokenReads(s2, "}", EndBlock, s3);
    TokenReads(s3, v, Normal, rest);
    StatementThenBrace(Tokens(w + s1), Token(Normal, w, false), Token(StatementEnd, ";", false),
                       Token(EndBlock, "}", false), Token(Normal, v, false), Tokens(rest));
    StuckIff(config, w + s1);
  }

  lemma StatementThenBrace(ts: seq<Token>, w: Token, semi: Token, brace: Token, v: Token, more: seq<Token>)
    requires ts == [w] + ([semi] + ([brace] + ([v] + more)))
    requires IsWord(w.kind) && semi.kind == StatementEnd && brace.kind == EndBlock && IsWord(v.kind)
    ensures ClosesTwice(ts, 2, [Simple([w.value])])
  {
    var c := [Simple([w.value])];
    FlattenOneWord(c, w.value);
    assert ts[..2] == [w, semi] && ts[2] == brace && ts[3] == v;
    assert c[0].tokens != [];
  }

  lemma StrayBrace(config: seq<Statement>, s: string)
    requires s == "a;}b;"
    ensures ParseInto(config, s) == Stuck
  {
    var w, v, rest := s[..1], s[3..4], s[4..];
    StrayBraceSticks(config, w, v, rest);
    assert s == w + (";" + ("}" + (v + rest)));
  }

  // --- bracket balance ----------------------------------------------------------------------

  function Balance(ts: seq<Token>): int {
    if ts == [] then 0
    else
      var n := |ts| - 1;
      Balance(ts[..n]) + if ts[n].kind == StartBlock then 1 else if ts[n].kind == EndBlock then -1 else 0
  }

  lemma BalanceSnoc(ts: seq<Token>, t: Token)
    ensures Balance(ts + [t]) == Balance(ts) + if t.kind == StartBlock then 1 else if t.kind == EndBlock then -1 else 0
  {
    assert (ts + [t])[..|ts|] == ts;
  }

  lemma {:induction false} StepsBalance(m: Machine, ts: seq<Token>)
    requires Valid(m) && Steps(m, ts).Continue?
    ensures Steps(m, ts).m.balance == m.balance + Balance(ts)
    decreases |ts|
  {
    if ts != [] {
      var n := |ts| - 1;
      var front, t := ts[..n], ts[n];
      assert ts == front + [t];
      StepsAppend(m, front, [t]);
      StepsBalance(m, front);
      StepsOne(Steps(m, front).m, t);
      BalanceSnoc(front, t);
    }
  }

  lemma BalanceAt(m: Machine, ts: seq<Token>, i: nat)
    requires Valid(m) && m.balance == 0 && i < |ts|
    requires Steps(m, ts).Done? && Steps(m, ts).outcome.Accepted?
    requires forall j :: 0 <= j < |ts| - 1 ==> !IsFinal(ts[j].kind)
    ensures var p := Steps(m, ts[..i]);
            p.Continue? && Height(p.m.stack) == Balance(ts[..i]) + 1 && Balance(ts[..i]) >= 0
  {
    NoEarlyEnd(m, ts, i);
    assert ts == ts[..i] + ts[i..];
    StepsAppend(m, ts[..i], ts[i..]);
    StepsBalance(m, ts[..i]);
    var m1 := Steps(m, ts[..i]).m;
    if m1.stack.Empty? {
      EmptyStackEnds(m1, ts[i]);
    }
  }

  /** Before every token of an accepted text the machine is running, its stack is exactly one higher
      than the bracket balance so far, and that balance was never negative. */
  lemma BalanceNeverNegative(config: seq<Statement>, s: string, i: nat)
    requires ParseInto(config, s).Accepted? && i < |Tokens(s)|
    ensures var p := Steps(Init(config), Tokens(s)[..i]);
            p.Continue? && Height(p.m.stack) == Balance(Tokens(s)[..i]) + 1
    ensures Balance(Tokens(s)[..i]) >= 0
  {
    TokensEnd(Init(config), Tokens(s));
    BalanceAt(Init(config), Tokens(s), i);
  }
}
