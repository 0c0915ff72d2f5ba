/** Where the store does not do what is promised: the requests that bring it about, and how long it lasts. */
module CrudFailures {
  import opened Decimal
  import opened FileTree
  import opened CrudHandler

  /** A disk that refuses nothing a request of this length may need. */
  predicate Sound(disk: Disk, filePath: Path) {
    disk.rootDirs > 1 && disk.entityDirs > |filePath| && disk.opens && disk.removes && disk.prunes
  }

  lemma NotObstructedAtFirst(s: Store, entity: Path)
    requires s == Nothing() && entity != []
    ensures !Obstructed(s, entity, POST)
  {
    forall id: nat
      ensures !Blocked(s.tree, Item(entity, id))
    {
      assert forall j :: 0 <= j <= |entity| ==> !IsFile(s.tree, entity[..j]);
    }
  }

  /** The first request of all, a POST: it succeeds, and its item with id 1 is all there is. */
  lemma FirstPost(s: Store, s': Store, call: Call, answer: Answer)
    requires Step(s, s', call, answer) && s == Nothing()
    requires call.method' == POST && ParseTarget(call.filePath).Collection? && Sound(call.disk, call.filePath)
    ensures answer.status == OK && Contents(s'.tree) == map[Item(call.filePath, 1) := call.body]
    ensures s'.ids.Keys == {call.filePath} && Gains(s.tree, s'.tree, call.filePath, POST)
  {
    EmptyStore(s.tree);
    NotObstructedAtFirst(s, call.filePath);
    NoFailure(s, s', call, answer);
    PostIntoEmpty(Contents(s.tree), Contents(s'.tree), call.filePath, call.body, answer);
  }

  lemma NoFailure(s: Store, s': Store, call: Call, answer: Answer)
    requires Step(s, s', call, answer) && Willing(s, call) && !Obstructed(s, call.filePath, call.method')
    ensures Answers(Contents(s.tree), Contents(s'.tree), call.method', ParseTarget(call.filePath), call.body,
                    answer.status, answer.reply)
    ensures answer.status != INTERNAL_SERVER_ERROR
  {
  }

  lemma PostIntoEmpty(m: map<Item, string>, m': map<Item, string>, entity: Path, body: string, answer: Answer)
    requires m == map[] && Answers(m, m', POST, Collection(entity), body, answer.status, answer.reply)
    requires answer.status != INTERNAL_SERVER_ERROR
    ensures answer.status == OK && m' == map[Item(entity, 1) := body]
  {
    var id: nat :| id >= 1 && Item(entity, id) !in m && (forall k: nat :: 1 <= k < id ==> Item(entity, k) in m)
                   && m' == m[Item(entity, id) := body] && answer.reply == IdReply(id);
    assert Item(entity, 1) !in m;
    assert id == 1;
  }

  // --- listing --------------------------------------------------------------------------------

  /** With one item stored and no directory but those on the way to it, that item has no sibling. */
  lemma OnlyItem(s: Store, i: Item, body: string)
    requires Agree(s.ids, s.tree) && Contents(s.tree) == map[i := body] && Gains(Nothing().tree, s.tree, i.entity, POST)
    ensures Indexed(s.ids, i) && !HasSibling(s.tree, PathOf(i)) && IsDir(s.tree, i.entity)
  {
    IndexedIffStored(s.ids, s.tree, i);
    assert Parent(PathOf(i)) == i.entity;
    forall p | p in s.tree && p != [] && p != PathOf(i)
      ensures Parent(p) != i.entity
    {
      if IsFile(s.tree, p) {
        ContentsAt(s.tree, ItemAt(p));
      } else {
        assert IsDir(s.tree, p) && !IsDir(Nothing().tree, p);
        assert |p| <= |i.entity|;
      }
    }
  }

  lemma DeleteSucceeds(m: map<Item, string>, m': map<Item, string>, i: Item, answer: Answer)
    requires exists body :: Answers(m, m', DELETE, Member(i), body, answer.status, answer.reply)
    requires i in m && answer.status != INTERNAL_SERVER_ERROR
    ensures answer.status == OK
  {
  }

  lemma DeleteOnly(s: Store, s': Store, call: Call, answer: Answer, i: Item)
    requires Step(s, s', call, answer) && i in Contents(s.tree) && i.entity in s.ids
    requires !HasSibling(s.tree, PathOf(i)) && IsDir(s.tree, i.entity)
    requires call.method' == DELETE && ParseTarget(call.filePath) == Member(i) && Sound(call.disk, call.filePath)
    ensures answer.status == OK && i.entity in s'.ids && !IsDir(s'.tree, i.entity)
  {
    assert !Obstructed(s, call.filePath, DELETE);
    DeleteSucceeds(Contents(s.tree), Contents(s'.tree), i, answer);
    assert Prunes(s.tree, i.entity, DELETE, Member(i), OK, call.disk.prunes);
  }

  /** POST to a new entity, DELETE of the item, and a GET that lists the entity: the answers are OK, OK and
      500, where the empty list is promised. For all entities but the root itself. */
  lemma ListingAfterLastDelete(stores: seq<Store>, calls: seq<Call>, answers: seq<Answer>, entity: Path)
    requires Explains(stores, calls, answers) && |calls| == 3
    requires |entity| >= 2 && ParseTarget(entity).Collection?
    requires calls[0].filePath == entity && calls[0].method' == POST && Sound(calls[0].disk, entity)
    requires calls[1].filePath == entity + [Dec(1)] && calls[1].method' == DELETE
    requires Sound(calls[1].disk, calls[1].filePath)
    requires calls[2].filePath == entity && calls[2].method' == GET
    ensures answers[0].status == OK && answers[1].status == OK && answers[2].status == INTERNAL_SERVER_ERROR
  {
    assert StepAt(stores, calls, answers, 0);
    assert StepAt(stores, calls, answers, 1);
    assert StepAt(stores, calls, answers, 2);
    PostDeleteList(stores[0], stores[1], stores[2], calls[0], calls[1], answers[0], answers[1], entity);
    ObstructedFails(stores[2], stores[3], calls[2], answers[2]);
  }

  lemma PostDeleteList(s0: Store, s1: Store, s2: Store, post: Call, delete: Call, a0: Answer, a1: Answer, entity: Path)
    requires s0 == Nothing() && Step(s0, s1, post, a0) && Step(s1, s2, delete, a1)
    requires |entity| >= 2 && ParseTarget(entity).Collection?
    requires post.filePath == entity && post.method' == POST && Sound(post.disk, entity)
    requires delete.filePath == entity + [Dec(1)] && delete.method' == DELETE && Sound(delete.disk, delete.filePath)
    ensures a0.status == OK && a1.status == OK && Obstructed(s2, entity, GET)
  {
    FirstPost(s0, s1, post, a0);
    PostedIdParsesBack(Item(entity, 1));
    OnlyItem(s1, Item(entity, 1), post.body);
    DeleteOnly(s1, s2, delete, a1, Item(entity, 1));
  }

  lemma ObstructedFails(s: Store, s': Store, call: Call, answer: Answer)
    requires Step(s, s', call, answer) && Obstructed(s, call.filePath, call.method')
    ensures answer.status == INTERNAL_SERVER_ERROR
  {
  }

  /** For example, on a disk that refuses nothing: POST to /crud/Shoes, DELETE of /crud/Shoes/1, and GET of
      /crud/Shoes. */
  method ListShoes(disk: Disk) returns (answers: seq<Answer>)
    requires Sound(disk, ["crud", "Shoes"]) && Sound(disk, ["crud", "Shoes", "1"])
    ensures |answers| == 3
    ensures answers[0].status == OK && answers[1].status == OK && answers[2].status == INTERNAL_SERVER_ERROR
  {
    var shoes: Path := ["crud", "Shoes"];
    var calls := [Call(shoes, POST, "{}", disk), Call(shoes + [Dec(1)], DELETE, "", disk), Call(shoes, GET, "", disk)];
    assert Dec(1) == "1" && shoes + ["1"] == ["crud", "Shoes", "1"];
    assert !AllDigits("Shoes") by {
      assert "Shoes"[0] == 'S';
    }
    answers := Serve(calls);
    ghost var stores :| Explains(stores, calls, answers);
    ListingAfterLastDelete(stores, calls, answers, shoes);
  }

  // --- how long a listing fails ---------------------------------------------------------------

  /** A listing that fails goes on failing through every request but a POST to the entity or below it. */
  lemma ListingStaysObstructed(s: Store, s': Store, call: Call, answer: Answer, e: Path)
    requires Step(s, s', call, answer) && e != [] && Obstructed(s, e, GET)
    requires !(call.method' == POST && e <= call.filePath)
    ensures Obstructed(s', e, GET)
  {
    assert Gains(s.tree, s'.tree, call.filePath, call.method');
  }

  lemma DirStored(s: Store, i: Item)
    requires Agree(s.ids, s.tree) && i in Contents(s.tree)
    ensures IsDir(s.tree, i.entity)
  {
    ContentsAt(s.tree, i);
    assert Parent(PathOf(i)) == i.entity;
  }

  lemma PostStores(m: map<Item, string>, m': map<Item, string>, e: Path, body: string, answer: Answer) returns (id: nat)
    requires Answers(m, m', POST, Collection(e), body, answer.status, answer.reply) && answer.status == OK
    ensures Item(e, id) !in m && Item(e, id) in m' && answer.reply == IdReply(id)
    ensures id >= 1 && forall k: nat :: 1 <= k < id ==> Item(e, k) in m
  {
    id :| id >= 1 && Item(e, id) !in m && (forall k: nat :: 1 <= k < id ==> Item(e, k) in m)
          && m' == m[Item(e, id) := body] && answer.reply == IdReply(id);
  }

  /** Such a POST, if it succeeds, makes the entity listable again. */
  lemma PostMakesListable(s: Store, s': Store, call: Call, answer: Answer, e: Path)
    requires Step(s, s', call, answer) && e != [] && ParseTarget(call.filePath).Collection?
    requires call.method' == POST && e <= call.filePath && answer.status == OK
    ensures !Obstructed(s', e, GET)
  {
    var id := PostStores(Contents(s.tree), Contents(s'.tree), call.filePath, call.body, answer);
    DirStored(s', Item(call.filePath, id));
    assert call.filePath[..|call.filePath|] == call.filePath && call.filePath[..|e|] == e;
    DirsAbove(s'.tree, call.filePath, |call.filePath|);
  }

  /** A property of moments that one step keeps. */
  predicate Keeps(holds: nat -> bool, i: nat) { holds(i) ==> holds(i + 1) }

  lemma {:induction false} Lasts(holds: nat -> bool, k: nat, j: nat)
    requires k <= j && holds(k) && forall i :: k <= i < j ==> Keeps(holds, i)
    ensures holds(j)
    decreases j
  {
    if k < j {
      Lasts(holds, k, j - 1);
      assert Keeps(holds, j - 1);
    }
  }

  /** In every sequence of requests a listing that fails goes on failing until a POST to the entity or below. */
  lemma ListingFailsUntilPost(stores: seq<Store>, calls: seq<Call>, answers: seq<Answer>, k: nat, j: nat, e: Path)
    requires Explains(stores, calls, answers) && k <= j < |calls| && e != [] && Obstructed(stores[k], e, GET)
    requires forall i :: k <= i < j ==> !(calls[i].method' == POST && e <= calls[i].filePath)
    requires calls[j].filePath == e && calls[j].method' == GET
    ensures answers[j].status == INTERNAL_SERVER_ERROR
  {
    var holds := (i: nat) => i < |stores| && Obstructed(stores[i], e, GET);
    forall i | k <= i < j
      ensures Keeps(holds, i)
    {
      if holds(i) {
        ListingObstructedNext(stores, calls, answers, i, e);
      }
    }
    Lasts(holds, k, j);
    FailsAt(stores, calls, answers, j);
  }

  lemma ListingObstructedNext(stores: seq<Store>, calls: seq<Call>, answers: seq<Answer>, i: nat, e: Path)
    requires Explains(stores, calls, answers) && i < |calls| && e != [] && Obstructed(stores[i], e, GET)
    requires !(calls[i].method' == POST && e <= calls[i].filePath)
    ensures Obstructed(stores[i + 1], e, GET)
  {
    assert StepAt(stores, calls, answers, i);
    ListingStaysObstructed(stores[i], stores[i + 1], calls[i], answers[i], e);
  }

  lemma FailsAt(stores: seq<Store>, calls: seq<Call>, answers: seq<Answer>, j: nat)
    requires Explains(stores, calls, answers) && j < |calls| && calls[j].filePath != []
    requires Obstructed(stores[j], calls[j].filePath, calls[j].method')
    ensures answers[j].status == INTERNAL_SERVER_ERROR
  {
    assert StepAt(stores, calls, answers, j);
    ObstructedFails(stores[j], stores[j + 1], calls[j], answers[j]);
  }

  // --- too big ids ----------------------------------------------------------------------------

  /** A request for an item makes `stoi` throw exactly if the id is beyond the range of `int`, whatever the
      verb, and then nothing stored has changed. */
  lemma TooBigThrowsIff(s: Store, s': Store, call: Call, answer: Answer, entity: Path, id: nat)
    requires Step(s, s', call, answer) && call.filePath == entity + [Dec(id)]
    ensures answer.status == THROWN <==> id > 2147483647
    ensures answer.status == THROWN ==> Contents(s'.tree) == Contents(s.tree)
  {
    ValueOfDec(id);
    assert call.filePath[|call.filePath| - 1] == Dec(id);
  }
}
