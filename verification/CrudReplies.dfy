/** What a client reads in the replies, spelt out: the printed id of a POST, PUT or DELETE names the item it is
    about, a listing separates its ids by a comma and a space, and which targets name an item at all. */
module CrudReplies {
  import opened Decimal
  import opened FileTree
  import opened CrudHandler
  import opened CrudFailures
  import opened CrudBlockedIds

  // --- numbers and targets --------------------------------------------------------------------

  predicate InDigits(s: string) { forall c :: c in s ==> c in "0123456789" }

  lemma DigitsAre(s: string)
    ensures AllDigits(s) <==> InDigits(s)
  {
    if AllDigits(s) {
      forall c | c in s
        ensures c in "0123456789"
      {
        assert c == "0123456789"[c as int - '0' as int];
      }
    }
    if InDigits(s) {
      forall i | 0 <= i < |s|
        ensures '0' <= s[i] <= '9'
      {
        assert s[i] in s;
      }
    }
  }

  /** Numbers are printed in decimal, most significant digit first. */
  lemma DecimalNotation(n: nat, d: nat)
    requires d < 10
    ensures Dec(d) == ["0123456789"[d]]
    ensures n > 0 ==> Dec(n * 10 + d) == Dec(n) + ["0123456789"[d]]
  {
    if n > 0 {
      DecStep(n * 10 + d, n, d);
    }
  }

  /** A digit string is read in decimal. */
  lemma DecimalReading(s: string, d: nat)
    requires d < 10
    ensures Value("") == 0 && Value(s + ["0123456789"[d]]) == Value(s) * 10 + d
  {
    var c := "0123456789"[d];
    assert (s + [c])[..|s|] == s && DigitValue(c) == d;
  }

  /** A target names an item exactly if its last component is made of digits only and is not beyond the range
      of a 32-bit `int`; any other is a collection, or too big. */
  lemma TargetIff(filePath: Path)
    requires filePath != []
    ensures var name := filePath[|filePath| - 1];
            && (ParseTarget(filePath).Collection? <==> !InDigits(name))
            && (ParseTarget(filePath).Member? <==> InDigits(name) && Value(name) <= 2147483647)
            && (ParseTarget(filePath).Collection? ==> ParseTarget(filePath).entity == filePath)
            && (ParseTarget(filePath).Member? ==>
                  ParseTarget(filePath).item == Item(filePath[..|filePath| - 1], Value(name)))
  {
    DigitsAre(filePath[|filePath| - 1]);
  }

  // --- the printed id -------------------------------------------------------------------------

  /** `reply` prints the digits `d`. */
  predicate PrintsId(reply: string, d: string) { reply == "{\"id\": " + d + "}\n\n" }

  lemma TargetOfPrinted(i: Item, d: string)
    requires i.id <= 2147483647 && d == Dec(i.id)
    ensures ParseTarget(i.entity + [d]) == Member(i)
  {
    PostedIdParsesBack(i);
  }

  /** A POST that succeeds stores its body as a new item of its entity, and the number in its reply, behind the
      path of the request, is the target of that item. */
  lemma PostReplyNames(s: Store, s': Store, call: Call, answer: Answer) returns (d: string, i: Item)
    requires Step(s, s', call, answer) && call.method' == POST && answer.status == OK
    ensures PrintsId(answer.reply, d) && InDigits(d)
    ensures i.id <= 2147483647 ==> ParseTarget(call.filePath + [d]) == Member(i)
    ensures i.entity == call.filePath && i !in Contents(s.tree)
    ensures i in Contents(s'.tree) && Contents(s'.tree)[i] == call.body
  {
    PostTarget(Contents(s.tree), Contents(s'.tree), ParseTarget(call.filePath), call.body, answer);
    d, i := PostPrints(Contents(s.tree), Contents(s'.tree), call.filePath, call.body, answer);
    DigitsAre(d);
  }

  lemma PostPrints(m: map<Item, string>, m': map<Item, string>, e: Path, body: string, answer: Answer)
    returns (d: string, i: Item)
    requires Answers(m, m', POST, Collection(e), body, answer.status, answer.reply) && answer.status == OK
    ensures PrintsId(answer.reply, d) && AllDigits(d) && i.entity == e && i !in m && i in m' && m'[i] == body
    ensures i.id <= 2147483647 ==> ParseTarget(e + [d]) == Member(i)
  {
    var id: nat :| id >= 1 && Item(e, id) !in m && (forall k: nat :: 1 <= k < id ==> Item(e, k) in m)
                   && m' == m[Item(e, id) := body] && answer.reply == IdReply(id);
    d, i := Dec(id), Item(e, id);
    ValueOfDec(id);
    if id <= 2147483647 {
      TargetOfPrinted(i, d);
    }
  }

  /** The number in the reply of a PUT or DELETE that succeeds, behind the entity's path, is the target that the
      request had. */
  lemma ItemReplyNames(s: Store, s': Store, call: Call, answer: Answer) returns (d: string)
    requires Step(s, s', call, answer) && (call.method' == PUT || call.method' == DELETE) && answer.status == OK
    ensures PrintsId(answer.reply, d) && InDigits(d)
    ensures ParseTarget(Parent(call.filePath) + [d]) == ParseTarget(call.filePath)
    ensures ParseTarget(call.filePath).Member?
    ensures ParseTarget(call.filePath).item in Contents(s.tree)
    ensures if call.method' == PUT then
              var i := ParseTarget(call.filePath).item; i in Contents(s'.tree) && Contents(s'.tree)[i] == call.body
            else ParseTarget(call.filePath).item !in Contents(s'.tree)
  {
    var m, target := Contents(s.tree), ParseTarget(call.filePath);
    ItemPrints(m, Contents(s'.tree), call.method', target, call.body, answer);
    TargetIff(call.filePath);
    d := Dec(target.item.id);
    TargetOfPrinted(target.item, d);
    ValueOfDec(target.item.id);
    DigitsAre(d);
  }

  lemma ItemPrints(m: map<Item, string>, m': map<Item, string>, method': Method, target: Target, body: string,
                   answer: Answer)
    requires Answers(m, m', method', target, body, answer.status, answer.reply) && answer.status == OK
    requires method' == PUT || method' == DELETE
    ensures target.Member? && target.item in m && PrintsId(answer.reply, Dec(target.item.id))
    ensures m' == if method' == PUT then m[target.item := body] else m - {target.item}
  {
  }

  // --- listings -------------------------------------------------------------------------------

  lemma {:induction false} SpacedSnoc(names: seq<string>, name: string)
    ensures CommaSpaced(names + [name]) == CommaSpaced(names) + ", " + name
    decreases |names|
  {
    if names == [] {
      assert (names + [name])[1..] == [];
    } else {
      assert (names + [name])[1..] == names[1..] + [name];
      SpacedSnoc(names[1..], name);
      assert ", " + names[0] + (CommaSpaced(names[1..]) + ", " + name)
          == (", " + names[0] + CommaSpaced(names[1..])) + ", " + name;
    }
  }

  /** A listing is its names between brackets, and a comma and a space before each but the first. */
  lemma ListingText(names: seq<string>, name: string)
    ensures ListReply([]) == "[]\n\n" && ListReply([name]) == "[" + name + "]\n\n"
    ensures names != [] ==> CommaJoined(names + [name]) == CommaJoined(names) + ", " + name
    ensures ListReply(names) == "[" + CommaJoined(names) + "]\n\n"
  {
    assert [name][1..] == [];
    assert name + "" == name;
    if names != [] {
      assert (names + [name])[1..] == names[1..] + [name];
      SpacedSnoc(names[1..], name);
      assert names[0] + (CommaSpaced(names[1..]) + ", " + name) == (names[0] + CommaSpaced(names[1..])) + ", " + name;
    }
  }

  // --- which status ---------------------------------------------------------------------------

  /** The status of every request on a disk that does what the request needs of it. */
  lemma StatusIs(s: Store, s': Store, call: Call, answer: Answer)
    requires Step(s, s', call, answer) && Willing(s, call)
    ensures match ParseTarget(call.filePath)
            case TooBig => answer.status == THROWN
            case Member(i) =>
              answer.status == (if call.method' == POST || call.method' == OTHER then BAD_REQUEST
                                else if i !in Contents(s.tree) then NOT_FOUND else OK)
            case Collection(e) =>
              answer.status == (if call.method' != POST && call.method' != GET then BAD_REQUEST
                                else if Obstructed(s, e, call.method') then INTERNAL_SERVER_ERROR else OK)
  {
    var target := ParseTarget(call.filePath);
    TargetIff(call.filePath);
    if !Obstructed(s, call.filePath, call.method') {
      NoFailure(s, s', call, answer);
      StatusOfAnswer(Contents(s.tree), Contents(s'.tree), call.method', target, call.body, answer);
    }
  }

  lemma StatusOfAnswer(m: map<Item, string>, m': map<Item, string>, method': Method, target: Target, body: string,
                       answer: Answer)
    requires Answers(m, m', method', target, body, answer.status, answer.reply)
    requires answer.status != INTERNAL_SERVER_ERROR
    ensures match target
            case TooBig => answer.status == THROWN
            case Member(i) =>
              answer.status == (if method' == POST || method' == OTHER then BAD_REQUEST
                                else if i !in m then NOT_FOUND else OK)
            case Collection(_) => answer.status == (if method' != POST && method' != GET then BAD_REQUEST else OK)
  {
  }

  /** A GET by id that succeeds replies with the stored body, and no GET changes anything stored. */
  lemma GetReplyIs(s: Store, s': Store, call: Call, answer: Answer)
    requires Step(s, s', call, answer) && call.method' == GET
    ensures Contents(s'.tree) == Contents(s.tree)
    ensures answer.status == OK && ParseTarget(call.filePath).Member? ==>
              && ParseTarget(call.filePath).item in Contents(s.tree)
              && answer.reply == Contents(s.tree)[ParseTarget(call.filePath).item]
  {
    GetOfAnswer(Contents(s.tree), Contents(s'.tree), ParseTarget(call.filePath), call.body, answer);
  }

  lemma GetOfAnswer(m: map<Item, string>, m': map<Item, string>, target: Target, body: string, answer: Answer)
    requires Answers(m, m', GET, target, body, answer.status, answer.reply)
             || (m' == m && answer.status == INTERNAL_SERVER_ERROR)
    ensures m' == m
    ensures answer.status == OK && target.Member? ==> target.item in m && answer.reply == m[target.item]
  {
  }
}
