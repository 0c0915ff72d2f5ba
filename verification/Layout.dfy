/** The layout of a printed config: two spaces a level, one space between words, a line for each statement. */
module Layout {
  import opened Grammar
  import opened Printer

  /** Two spaces for each level of depth. */
  lemma {:induction false} IndentIs(depth: int)
    ensures |Indent(depth)| == if depth <= 0 then 0 else 2 * depth
    ensures forall c :: c in Indent(depth) ==> c == ' '
    decreases depth
  {
    if depth > 0 {
      IndentIs(depth - 1);
    }
  }

  lemma {:induction false} SpacedSnoc(words: seq<string>, word: string)
    ensures Spaced(words + [word]) == Spaced(words) + " " + word
    decreases |words|
  {
    if words == [] {
      assert (words + [word])[1..] == [];
    } else {
      assert (words + [word])[1..] == words[1..] + [word];
      SpacedSnoc(words[1..], word);
      assert " " + words[0] + (Spaced(words[1..]) + " " + word) == (" " + words[0] + Spaced(words[1..])) + " " + word;
    }
  }

  /** One space between two words, none before the first or behind the last. */
  lemma WordsAre(words: seq<string>, word: string)
    ensures Joined([word]) == word
    ensures words != [] ==> Joined(words + [word]) == Joined(words) + " " + word
  {
    assert [word][1..] == [] && word + "" == word;
    if words != [] {
      assert (words + [word])[1..] == words[1..] + [word];
      SpacedSnoc(words[1..], word);
      assert words[0] + (Spaced(words[1..]) + " " + word) == (words[0] + Spaced(words[1..])) + " " + word;
    }
  }

  lemma {:induction false} PrintAppend(a: seq<Statement>, b: seq<Statement>, depth: int)
    ensures Print(a + b, depth) == Print(a, depth) + Print(b, depth)
    decreases |a|
  {
    if a == [] {
      assert a + b == b;
    } else {
      assert (a + b)[1..] == a[1..] + b;
      PrintAppend(a[1..], b, depth);
      Regroup(PrintStatement(a[0], depth), Print(a[1..], depth), Print(b, depth));
    }
  }

  lemma Regroup(a: string, b: string, c: string)
    ensures a + (b + c) == (a + b) + c
  {
  }

  /** A statement without a block is one line; one with a block has its words and an opening brace on the first
      line, the block one level deeper, and the closing brace on a line of its own. */
  lemma StatementText(words: seq<string>, body: seq<Statement>, depth: int)
    ensures Print([], depth) == ""
    ensures Print([Simple(words)], depth) == Indent(depth) + Joined(words) + ";\n"
    ensures Print([Block(words, body)], depth) ==
            Indent(depth) + Joined(words) + (" {\n" + Print(body, depth + 1) + Indent(depth) + "}\n")
  {
    assert [Simple(words)][1..] == [] && [Block(words, body)][1..] == [];
    assert Indent(depth) + Joined(words) + ";\n" + "" == Indent(depth) + Joined(words) + ";\n";
  }
}
