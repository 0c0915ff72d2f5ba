/** `NginxConfigParser::Parse` on the heap: a stack of pointers into the tree under construction, the
    shape that every token keeps, and the printer that walks the finished tree. */
module ConfigParser {
  import opened Lexer
  import opened Grammar
  import opened Printer

  class NginxConfigStatement {
    var tokens: seq<string>
    var childBlock: NginxConfig?

    constructor ()
      ensures tokens == [] && childBlock == null
    {
      tokens, childBlock := [], null;
    }

    /** The words behind `pad`, one space apart. */
    method WriteWords(pad: string) returns (text: string)
      ensures text == pad + Joined(tokens)
    {
      text := pad;
      var i := 0;
      while i < |tokens|
        invariant 0 <= i <= |tokens|
        invariant i == 0 ==> text == pad
        invariant i > 0 ==> text + Spaced(tokens[i..]) == pad + Joined(tokens)
      {
        assert tokens[i..][1..] == tokens[i + 1..];
        if i != 0 {
          text := text + " ";
        }
        text := text + tokens[i];
        i := i + 1;
      }
      assert text + "" == text;
    }

    method ToString(depth: int, ghost v: Statement, ghost nodes: set<object>) returns (text: string)
      requires Shows(this, v, nodes)
      ensures text == PrintStatement(v, depth)
      decreases v, 1
    {
      var pad := Padding(depth);
      var words := WriteWords(pad);
      text := words;
      if childBlock != null {
        var inner := childBlock.ToString(depth + 1, v.body, nodes);
        text := text + " {\n" + inner + pad + "}";
        assert text + "\n" == words + (" {\n" + inner + pad + "}\n");
      } else {
        text := text + ";";
        assert text + "\n" == words + ";\n";
      }
      text := text + "\n";
    }
  }

  class NginxConfig {
    var statements: seq<NginxConfigStatement>

    constructor ()
      ensures statements == []
    {
      statements := [];
    }

    method ToString(depth: int, ghost v: seq<Statement>, ghost nodes: set<object>) returns (text: string)
      requires ShowsAll(statements, v, nodes)
      ensures text == Print(v, depth)
      decreases v, 2
    {
      text := "";
      for i := 0 to |statements|
        invariant text + Print(v[i..], depth) == Print(v, depth)
      {
        var line := statements[i].ToString(depth, v[i], nodes);
        PrintFrom(text, v, i, depth);
        text := text + line;
      }
      assert text + "" == text;
    }
  }

  lemma PrintFrom(text: string, v: seq<Statement>, i: nat, depth: int)
    requires i < |v|
    ensures text + Print(v[i..], depth) == (text + PrintStatement(v[i], depth)) + Print(v[i + 1..], depth)
  {
    var line, more := PrintStatement(v[i], depth), Print(v[i + 1..], depth);
    assert v[i..][1..] == v[i + 1..];
    assert text + (line + more) == (text + line) + more;
  }

  method Padding(depth: int) returns (pad: string)
    ensures pad == Indent(depth)
  {
    pad := "";
    var i := 0;
    while i < depth
      invariant 0 <= i && (depth >= 0 ==> i <= depth)
      invariant pad + Indent(depth - i) == Indent(depth)
    {
      pad := pad + "  ";
      i := i + 1;
    }
    assert pad + "" == pad;
  }

  // --- trees on the heap --------------------------------------------------------------------

  /** The statement object is the value `v`, built from objects of `nodes` only. */
  ghost predicate Shows(o: NginxConfigStatement, v: Statement, nodes: set<object>)
    reads nodes
    decreases v, 0
  {
    && o in nodes && o.tokens == v.tokens
    && (v.Simple? ==> o.childBlock == null)
    && (v.Block? ==> o.childBlock != null && o.childBlock in nodes && ShowsAll(o.childBlock.statements, v.body, nodes))
  }

  ghost predicate ShowsAll(os: seq<NginxConfigStatement>, vs: seq<Statement>, nodes: set<object>)
    reads nodes
    decreases vs, 1
  {
    |os| == |vs| && forall i :: 0 <= i < |os| ==> Shows(os[i], vs[i], nodes)
  }

  lemma {:induction false} ShowsMore(o: NginxConfigStatement, v: Statement, nodes: set<object>, more: set<object>)
    requires Shows(o, v, nodes) && nodes <= more
    ensures Shows(o, v, more)
    decreases v, 0
  {
    if v.Block? {
      ShowsAllMore(o.childBlock.statements, v.body, nodes, more);
    }
  }

  lemma {:induction false} ShowsAllMore(os: seq<NginxConfigStatement>, vs: seq<Statement>, nodes: set<object>,
                                        more: set<object>)
    requires ShowsAll(os, vs, nodes) && nodes <= more
    ensures ShowsAll(os, vs, more)
    decreases vs, 1
  {
    forall i | 0 <= i < |os|
      ensures Shows(os[i], vs[i], more)
    {
      ShowsMore(os[i], vs[i], nodes, more);
    }
  }

  /** Every config of `cs` shows its level of `k` with one more statement, the one in `os`, whose
      words are those being written and whose child block is the config above it (`child` on top).
      No finished object is on the spine, and no object is on it twice. */
  ghost predicate Hangs(cs: seq<NginxConfig>, os: seq<NginxConfigStatement>, k: Stack, child: NginxConfig?,
                        done: set<object>)
    reads cs, os, done
    decreases k
  {
    if k.Empty? then cs == [] && os == []
    else
      && |cs| == |os| > 0
      && var n := |cs| - 1;
      && cs[n] !in done && os[n] !in done && cs[n] !in cs[..n] && os[n] !in os[..n]
      && |cs[n].statements| > 0
      && cs[n].statements[|cs[n].statements| - 1] == os[n]
      && ShowsAll(cs[n].statements[..|cs[n].statements| - 1], k.done, done)
      && os[n].tokens == k.open && os[n].childBlock == child
      && Hangs(cs[..n], os[..n], k.below, cs[n], done)
  }

  lemma HangsFold(cs: seq<NginxConfig>, os: seq<NginxConfigStatement>, k: Stack, child: NginxConfig?, done: set<object>)
    requires k.Level? && |cs| == |os| > 0
    requires var n := |cs| - 1;
             && cs[n] !in done && os[n] !in done && cs[n] !in cs[..n] && os[n] !in os[..n]
             && |cs[n].statements| > 0
             && cs[n].statements[|cs[n].statements| - 1] == os[n]
             && ShowsAll(cs[n].statements[..|cs[n].statements| - 1], k.done, done)
             && os[n].tokens == k.open && os[n].childBlock == child
             && Hangs(cs[..n], os[..n], k.below, cs[n], done)
    ensures Hangs(cs, os, k, child, done)
  {
  }

  lemma {:induction false} HangsMore(cs: seq<NginxConfig>, os: seq<NginxConfigStatement>, k: Stack, child: NginxConfig?,
                                     done: set<object>, more: set<object>)
    requires Hangs(cs, os, k, child, done) && done <= more
    requires forall c :: c in cs ==> c !in more
    requires forall o :: o in os ==> o !in more
    ensures Hangs(cs, os, k, child, more)
    decreases k
  {
    if k.Level? {
      var n := |cs| - 1;
      ShowsAllMore(cs[n].statements[..|cs[n].statements| - 1], k.done, done, more);
      HangsMore(cs[..n], os[..n], k.below, cs[n], done, more);
    }
  }

  // --- the parser ---------------------------------------------------------------------------

  /** `True` and `False` are the return values of `Parse`; `Undefined` is a use of the empty stack. */
  datatype Verdict = Running | True | False | Undefined

  /** The locals of `Parse`. `m` is what the stack machine of the grammar has come to, `openStatements`
      the statements being written, bottom first, and `done` the objects of the finished ones. */
  class ParseRun {
    var configStack: seq<NginxConfig>
    var lastTokenType: Kind
    var bracketBalance: int
    ghost var m: Machine
    ghost var openStatements: seq<NginxConfigStatement>
    ghost var done: set<object>
    ghost var Repr: set<object>
    ghost const root: NginxConfig

    /** The heap between two tokens: the objects of the run are those of the stack `k`. */
    ghost predicate Holds(k: Stack)
      reads this`configStack, this`openStatements, this`Repr, this`done, Repr, done
    {
      && this !in Repr && this !in done
      && (forall i :: 0 <= i < |configStack| ==> configStack[i] in Repr)
      && (forall i :: 0 <= i < |openStatements| ==> openStatements[i] in Repr)
      && (configStack != [] ==> configStack[0] == root)
      && |configStack| == Height(k)
      && Spine(configStack, openStatements, k, done)
    }

    /** The stack is one higher than the bracket balance, and each entry is the child block of the
        last statement of the entry beneath it. */
    ghost predicate Valid()
      reads this, Repr, done
    {
      && Grammar.Valid(m) && lastTokenType == m.last && bracketBalance == m.balance
      && Holds(m.stack)
    }

    constructor (config: NginxConfig, ghost v: seq<Statement>, ghost nodes: set<object>)
      requires ShowsAll(config.statements, v, nodes) && config !in nodes
      ensures Valid() && m == Init(v) && root == config
      ensures Repr == {config}
    {
      configStack, lastTokenType, bracketBalance := [config], Start, 0;
      m, openStatements, done, root, Repr := Init(v), [], nodes, config, {config};
    }

    /** The verdict is that of the stack machine, and an accepted tree is the one in `root`. */
    ghost predicate Shown(o: Outcome, verdict: Verdict)
      reads this, root, done
    {
      match o
      case Accepted(c) => verdict == True && ShowsAll(root.statements, c, done)
      case Rejected => verdict == False
      case Stuck => verdict == Undefined
    }

    /** One turn of the loop of `Parse` on a token that is not a comment. */
    method Feed(kind: Kind, value: string, seenWhitespace: bool) returns (verdict: Verdict)
      requires Valid()
      modifies this, Repr
      ensures fresh(Repr - old(Repr))
      ensures var p := Step(old(m), Token(kind, value, seenWhitespace));
              if p.Continue? then verdict == Running && Valid() && m == p.m
              else verdict != Running && Shown(p.outcome, verdict) && Valid() && m == old(m)
    {
      ghost var t := Token(kind, value, seenWhitespace);
      verdict := Judge(kind, value, seenWhitespace);
      if verdict == Running {
        StepActs(m, t);
        Act(kind, value, Step(m, t).m);
      }
    }

    /** The checks of one turn: whether the run goes on after this token. */
    method Judge(kind: Kind, ghost value: string, seenWhitespace: bool) returns (verdict: Verdict)
      requires Valid()
      ensures var p := Step(m, Token(kind, value, seenWhitespace));
              if p.Continue? then verdict == Running else verdict != Running && Shown(p.outcome, verdict)
    {
      verdict := Running;
      if IsWord(kind) {
        if IsWord(lastTokenType) && !seenWhitespace { return False; }
        if configStack == [] { return Undefined; }
      } else if kind == StatementEnd || kind == StartBlock {
        if !IsWord(lastTokenType) { return False; }
      } else if kind == EndBlock {
        if !MayClose(lastTokenType) { return False; }
        if configStack == [] { return Undefined; }
      } else if kind == EndOfFile {
        if !MayFinish(lastTokenType) || bracketBalance != 0 { return False; }
        OnlyLevel(m.stack);
        return True;
      } else {
        return False;
      }
    }

    /** The effect of one turn on the stack, the tree and the locals. */
    method Act(kind: Kind, value: string, ghost m': Machine)
      requires Valid() && Acts(m, kind, value, m') && Grammar.Valid(m')
      modifies this, Repr
      ensures Valid() && m == m' && fresh(Repr - old(Repr))
    {
      Rebuild(kind, value, m.stack, m'.stack);
      bracketBalance := bracketBalance + if kind == StartBlock then 1 else if kind == EndBlock then -1 else 0;
      lastTokenType := kind;
      m := m';
    }

    method Rebuild(kind: Kind, value: string, ghost k: Stack, ghost k': Stack)
      requires Holds(k) && Rebuilds(k, kind, value, k') && (IsWord(lastTokenType) <==> k.open != [])
      modifies this`configStack, this`openStatements, this`Repr, this`done, configStack, openStatements
      ensures Holds(k') && fresh(Repr - old(Repr))
    {
      if IsWord(kind) {
        if !IsWord(lastTokenType) {
          StartStatement(value, k);
        } else {
          ExtendStatement(value, k);
        }
      } else if kind == StatementEnd {
        EndStatement(k);
      } else if kind == StartBlock {
        StartChild(k);
      } else {
        EndChild(k);
      }
    }

    /** One lexeme read and acted on. */
    method Turn(text: string, start: nat) returns (verdict: Verdict, next: nat)
      requires Valid() && start <= |text|
      modifies this, Repr
      ensures fresh(Repr - old(Repr))
      ensures start <= next <= |text|
      ensures verdict == Running ==>
                Valid() && start < next && RunOn(m, text[next..]) == RunOn(old(m), text[start..])
      ensures verdict != Running ==>
                var p := RunOn(old(m), text[start..]); p.Done? && Shown(p.outcome, verdict)
    {
      var kind, value, seenWhitespace;
      kind, value, seenWhitespace, next := ParseToken(text, start);
      RunOnNext(m, text[start..]);
      verdict := Running;
      if kind != Comment {
        verdict := Feed(kind, value, seenWhitespace);
      }
    }

    /** The first word of a statement. */
    method StartStatement(value: string, ghost k: Stack)
      requires Holds(k) && k.Level? && k.open == []
      modifies this`openStatements, this`Repr, configStack
      ensures Holds(k.(open := k.open + [value])) && fresh(Repr - old(Repr))
    {
      var n := |configStack| - 1;
      var top := configStack[n];
      var s := new NginxConfigStatement();
      s.tokens := s.tokens + [value];
      top.statements := top.statements + [s];
      openStatements, Repr := openStatements + [s], Repr + {s};
      assert openStatements[..n] == old(openStatements);
      assert top.statements[..|top.statements| - 1] == old(top.statements);
      assert Hangs(configStack[..n], openStatements[..n], k.below, top, done);
    }

    /** Another word of the statement being written. */
    method ExtendStatement(value: string, ghost k: Stack)
      requires Holds(k) && k.Level? && k.open != []
      modifies openStatements
      ensures Holds(k.(open := k.open + [value]))
    {
      var n := |configStack| - 1;
      var top := configStack[n];
      var last := top.statements[|top.statements| - 1];
      last.tokens := last.tokens + [value];
      assert Hangs(configStack[..n], openStatements[..n], k.below, top, done);
    }

    /** A ';': the statement being written is finished. Nothing changes on the heap. */
    ghost method EndStatement(k: Stack)
      requires Holds(k) && k.Level? && k.open != []
      modifies this`openStatements, this`done
      ensures Holds(Finish(k, Simple(k.open)))
    {
      var n := |configStack| - 1;
      var s := openStatements[n];
      FinishSpine(configStack, openStatements, k, null, Simple(k.open), done, {s});
      openStatements := openStatements[..n];
      done := done + {s};
    }

    /** A '{': an empty config becomes the child of the statement being written. */
    method StartChild(ghost k: Stack)
      requires Holds(k) && k.Level? && k.open != []
      modifies this`configStack, this`Repr, openStatements
      ensures Holds(Level([], [], k)) && fresh(Repr - old(Repr))
    {
      var n := |configStack| - 1;
      var top := configStack[n];
      var newConfig := new NginxConfig();
      top.statements[|top.statements| - 1].childBlock := newConfig;
      assert Hangs(configStack[..n], openStatements[..n], k.below, top, done);
      HangsFold(configStack, openStatements, k, newConfig, done);
      configStack, Repr := configStack + [newConfig], Repr + {newConfig};
      assert configStack[..n + 1] == old(configStack);
    }

    /** A '}': the top config is finished, and with it the statement beneath that owns it. */
    method EndChild(ghost k: Stack)
      requires Holds(k) && k.Level? && k.open == [] && Chained(k.below)
      modifies this`configStack, this`openStatements, this`done
      ensures Holds(Pop(k))
    {
      var n := |configStack| - 1;
      CloseSpine(configStack, openStatements, k, done);
      if n > 0 {
        ghost var s := openStatements[n - 1];
        openStatements := openStatements[..n - 1];
        done := done + {configStack[n], s};
      }
      configStack := configStack[..n];
    }
  }

  /** How the stack changes on each kind of token that keeps `Parse` running. */
  predicate Rebuilds(k: Stack, kind: Kind, value: string, k': Stack) {
    && k.Level? && Chained(k.below)
    && if IsWord(kind) then k' == k.(open := k.open + [value])
       else if kind == StatementEnd then k.open != [] && k' == Finish(k, Simple(k.open))
       else if kind == StartBlock then k.open != [] && k' == Level([], [], k)
       else kind == EndBlock && k.open == [] && k' == Pop(k)
  }

  predicate Acts(m: Machine, kind: Kind, value: string, m': Machine) {
    && Rebuilds(m.stack, kind, value, m'.stack) && (IsWord(m.last) <==> m.stack.open != [])
    && m'.last == kind
    && m'.balance == m.balance + if kind == StartBlock then 1 else if kind == EndBlock then -1 else 0
  }

  lemma StepActs(m: Machine, t: Token)
    requires Grammar.Valid(m) && Step(m, t).Continue?
    ensures Acts(m, t.kind, t.value, Step(m, t).m)
  {
  }

  /** Finishing the statement on top of a spine: it and what hangs below it join the finished objects. */
  lemma FinishSpine(cs: seq<NginxConfig>, os: seq<NginxConfigStatement>, k: Stack, child: NginxConfig?, s: Statement,
                    done: set<object>, more: set<object>)
    requires k.Level? && Hangs(cs, os, k, child, done) && Shows(os[|os| - 1], s, done + more)
    requires forall c :: c in cs ==> c !in more
    requires forall o :: o in os[..|os| - 1] ==> o !in more
    ensures Spine(cs, os[..|os| - 1], Finish(k, s), done + more)
  {
    var n, all := |cs| - 1, done + more;
    var c := cs[n];
    var last := |c.statements| - 1;
    ShowsAllMore(c.statements[..last], k.done, done, all);
    assert c.statements == c.statements[..last] + [os[n]];
    forall i | 0 <= i <= last
      ensures Shows(c.statements[i], (k.done + [s])[i], all)
    {
      if i < last {
        assert c.statements[i] == c.statements[..last][i];
      }
    }
    HangsApart(cs, os, k, child, done);
    HangsMore(cs[..n], os[..n], k.below, c, done, all);
  }

  /** Popping the stack: the top config and the statement beneath that owns it are finished. */
  lemma CloseSpine(cs: seq<NginxConfig>, os: seq<NginxConfigStatement>, k: Stack, done: set<object>)
    requires k.Level? && k.open == [] && Chained(k.below) && Spine(cs, os, k, done)
    ensures |os| == |cs| - 1
    ensures var n := |os|;
            if n == 0 then Spine([], [], Pop(k), done)
            else Spine(cs[..n], os[..n - 1], Pop(k), done + {cs[n], os[n - 1]})
  {
    var n := |cs| - 1;
    if k.below.Level? {
      var c, s := cs[n], os[n - 1];
      var more: set<object> := {c, s};
      ShowsAllMore(c.statements, k.done, done, done + more);
      assert Shows(s, Block(k.below.open, k.done), done + more);
      FinishSpine(cs[..n], os, k.below, c, Block(k.below.open, k.done), done, more);
    }
  }

  lemma {:induction false} HangsApart(cs: seq<NginxConfig>, os: seq<NginxConfigStatement>, k: Stack,
                                      child: NginxConfig?, done: set<object>)
    requires Hangs(cs, os, k, child, done)
    ensures forall c :: c in cs ==> c !in done
    ensures forall o :: o in os ==> o !in done
    decreases k
  {
    if k.Level? {
      var n := |cs| - 1;
      HangsApart(cs[..n], os[..n], k.below, cs[n], done);
      assert cs == cs[..n] + [cs[n]] && os == os[..n] + [os[n]];
    }
  }

  /** The objects of a run between two tokens; the top config has an open statement if words have
      been read for one. */
  ghost predicate Spine(cs: seq<NginxConfig>, os: seq<NginxConfigStatement>, k: Stack, done: set<object>)
    reads cs, os, done
  {
    if k.Empty? then cs == [] && os == []
    else if k.open != [] then Hangs(cs, os, k, null, done)
    else
      && cs != []
      && var n := |cs| - 1;
      && cs[n] !in done && cs[n] !in cs[..n]
      && ShowsAll(cs[n].statements, k.done, done)
      && Hangs(cs[..n], os, k.below, cs[n], done)
  }

  lemma WholeRun(m: Machine, v: seq<Statement>, text: string) returns (p: Progress)
    requires m == Init(v)
    ensures p == RunOn(m, text[0..]) && p.Done? && p.outcome == ParseInto(v, text)
  {
    assert text[0..] == text;
    p := RunOn(m, text);
    TokensEnd(m, Tokens(text));
  }

  /** `Parse` on a text. `True` is its return value true, `False` its return value false, `Undefined` a
      use of the empty stack. The tree it leaves in an accepted `config` is the tree of the grammar. */
  method Parse(text: string, config: NginxConfig, ghost v: seq<Statement>, ghost nodes: set<object>)
    returns (verdict: Verdict, ghost nodes': set<object>)
    requires ShowsAll(config.statements, v, nodes) && config !in nodes
    modifies config
    ensures match ParseInto(v, text)
            case Accepted(c) => verdict == True && ShowsAll(config.statements, c, nodes')
            case Rejected => verdict == False
            case Stuck => verdict == Undefined
  {
    var run := new ParseRun(config, v, nodes);
    ghost var p := WholeRun(run.m, v, text);
    verdict := Running;
    var next := 0;
    while verdict == Running
      invariant run.root == config && fresh(run) && fresh(run.Repr - {config}) && next <= |text|
      invariant verdict == Running ==> run.Valid() && RunOn(run.m, text[next..]) == p
      invariant verdict != Running ==> p.Done? && run.Shown(p.outcome, verdict)
      decreases if verdict == Running then 1 + |text| - next else 0
    {
      verdict, next := run.Turn(text, next);
    }
    nodes' := run.done;
  }
}
