/** An id that is free in the index and taken on the disk: how a POST comes to be blocked, which requests
    release it, and the directories that block for ever. */
module CrudBlockedIds {
  import opened Decimal
  import opened FileTree
  import opened CrudHandler
  import opened CrudFailures

  // --- what one request adds and takes --------------------------------------------------------

  /** Only a POST that succeeds adds an item, and it adds it to its own entity. */
  lemma OnlyPostAdds(m: map<Item, string>, m': map<Item, string>, method': Method, target: Target, body: string,
                     answer: Answer, i: Item)
    requires Answers(m, m', method', target, body, answer.status, answer.reply)
    requires i in m' && i !in m
    ensures method' == POST && answer.status == OK && target == Collection(i.entity)
  {
  }

  /** Only a DELETE of an item that succeeds takes it away. */
  lemma OnlyDeleteTakes(m: map<Item, string>, m': map<Item, string>, method': Method, target: Target, body: string,
                        answer: Answer, i: Item)
    requires Answers(m, m', method', target, body, answer.status, answer.reply)
    requires i in m && i !in m'
    ensures method' == DELETE && answer.status == OK && target == Member(i)
  {
  }

  lemma AddedBy(s: Store, s': Store, call: Call, answer: Answer, i: Item)
    requires Step(s, s', call, answer) && i in Contents(s'.tree) && i !in Contents(s.tree)
    ensures call.method' == POST && answer.status == OK && call.filePath == i.entity
    ensures ParseTarget(i.entity).Collection?
  {
    OnlyPostAdds(Contents(s.tree), Contents(s'.tree), call.method', ParseTarget(call.filePath), call.body, answer, i);
  }

  lemma TakenBy(s: Store, s': Store, call: Call, answer: Answer, i: Item)
    requires Step(s, s', call, answer) && i in Contents(s.tree) && i !in Contents(s'.tree)
    ensures call.method' == DELETE && answer.status == OK && ParseTarget(call.filePath) == Member(i)
  {
    OnlyDeleteTakes(Contents(s.tree), Contents(s'.tree), call.method', ParseTarget(call.filePath), call.body, answer,
                    i);
  }

  /** The target of a DELETE that succeeds was stored, and is not afterwards. */
  lemma DeleteTakes(s: Store, s': Store, call: Call, answer: Answer)
    requires Step(s, s', call, answer) && call.method' == DELETE && answer.status == OK
    ensures ParseTarget(call.filePath).Member?
    ensures var i := ParseTarget(call.filePath).item;
            i in Contents(s.tree) && Contents(s'.tree) == Contents(s.tree) - {i}
  {
  }

  // --- directories with a number for a name ---------------------------------------------------

  /** No entity of the index has a number for its last component. */
  ghost predicate KeysOk(s: Store) { forall e :: e in s.ids ==> e != [] && ParseTarget(e).Collection? }

  lemma KeysKept(s: Store, s': Store, call: Call, answer: Answer)
    requires Step(s, s', call, answer) && KeysOk(s)
    ensures KeysOk(s')
  {
    if call.method' == POST && answer.status == OK {
      PostTarget(Contents(s.tree), Contents(s'.tree), ParseTarget(call.filePath), call.body, answer);
    }
  }

  lemma PostTarget(m: map<Item, string>, m': map<Item, string>, target: Target, body: string, answer: Answer)
    requires Answers(m, m', POST, target, body, answer.status, answer.reply) && answer.status == OK
    ensures target.Collection?
  {
  }

  lemma KeysAlways(stores: seq<Store>, calls: seq<Call>, answers: seq<Answer>, k: nat)
    requires Explains(stores, calls, answers) && k <= |calls|
    ensures KeysOk(stores[k])
  {
    var holds := (i: nat) => i < |stores| && KeysOk(stores[i]);
    forall i | 0 <= i < k
      ensures Keeps(holds, i)
    {
      if holds(i) {
        KeysNext(stores, calls, answers, i);
      }
    }
    Lasts(holds, 0, k);
  }

  lemma KeysNext(stores: seq<Store>, calls: seq<Call>, answers: seq<Answer>, i: nat)
    requires Explains(stores, calls, answers) && i < |calls| && KeysOk(stores[i])
    ensures KeysOk(stores[i + 1])
  {
    assert StepAt(stores, calls, answers, i);
    KeysKept(stores[i], stores[i + 1], calls[i], answers[i]);
  }

  /** A directory with a number for a name is never pruned: it is the directory of no entity. */
  lemma NumberedDirStays(s: Store, s': Store, call: Call, answer: Answer, p: Path)
    requires Step(s, s', call, answer) && KeysOk(s)
    requires p != [] && IsDir(s.tree, p) && !ParseTarget(p).Collection?
    ensures IsDir(s'.tree, p)
  {
    if call.method' == DELETE && answer.status == OK {
      DeleteTakes(s, s', call, answer);
      IndexedIffStored(s.ids, s.tree, ParseTarget(call.filePath).item);
    }
  }

  lemma NumberedDirStands(stores: seq<Store>, calls: seq<Call>, answers: seq<Answer>, k: nat, j: nat, p: Path)
    requires Explains(stores, calls, answers) && k <= j <= |calls|
    requires p != [] && IsDir(stores[k].tree, p) && !ParseTarget(p).Collection?
    ensures IsDir(stores[j].tree, p)
  {
    var holds := (i: nat) => i < |stores| && IsDir(stores[i].tree, p);
    forall i | k <= i < j
      ensures Keeps(holds, i)
    {
      if holds(i) {
        NumberedDirNext(stores, calls, answers, i, p);
      }
    }
    Lasts(holds, k, j);
  }

  lemma NumberedDirNext(stores: seq<Store>, calls: seq<Call>, answers: seq<Answer>, i: nat, p: Path)
    requires Explains(stores, calls, answers) && i < |calls|
    requires p != [] && IsDir(stores[i].tree, p) && !ParseTarget(p).Collection?
    ensures IsDir(stores[i + 1].tree, p)
  {
    KeysAlways(stores, calls, answers, i);
    assert StepAt(stores, calls, answers, i);
    NumberedDirStays(stores[i], stores[i + 1], calls[i], answers[i], p);
  }

  lemma PathOfIsNumbered(i: Item)
    ensures !ParseTarget(PathOf(i)).Collection?
  {
    ValueOfDec(i.id);
  }

  /** Once a directory stands where the body of an item would be stored, that item is never stored again. */
  lemma NeverStoredAgain(stores: seq<Store>, calls: seq<Call>, answers: seq<Answer>, k: nat, j: nat, i: Item)
    requires Explains(stores, calls, answers) && k <= j <= |calls| && IsDir(stores[k].tree, PathOf(i))
    ensures IsDir(stores[j].tree, PathOf(i)) && i !in Contents(stores[j].tree)
  {
    PathOfIsNumbered(i);
    NumberedDirStands(stores, calls, answers, k, j, PathOf(i));
    ContentsAt(stores[j].tree, i);
  }

  lemma BlockedWhileLowerStored(s: Store, e: Path, id: nat)
    requires Agree(s.ids, s.tree) && e != [] && ParseTarget(e).Collection? && id >= 1
    requires IsDir(s.tree, PathOf(Item(e, id))) && forall n: nat :: 1 <= n < id ==> Item(e, n) in Contents(s.tree)
    ensures Obstructed(s, e, POST)
  {
    ContentsAt(s.tree, Item(e, id));
    IndexedIffStored(s.ids, s.tree, Item(e, id));
    forall n: nat | 1 <= n < id
      ensures n in UsedIds(s.ids, e)
    {
      IndexedIffStored(s.ids, s.tree, Item(e, n));
    }
    assert IsLeastFree(UsedIds(s.ids, e), id);
    assert Blocked(s.tree, Item(e, id));
  }

  /** From then on, whatever is deleted in between, no POST to the entity gets as far as that id: it is
      answered with a smaller one or with 500, and with 500 for sure while all smaller ones are stored. */
  lemma BlockedForEver(stores: seq<Store>, calls: seq<Call>, answers: seq<Answer>, k: nat, j: nat, e: Path, id: nat)
    requires Explains(stores, calls, answers) && k <= j < |calls|
    requires e != [] && ParseTarget(e).Collection? && id >= 1 && IsDir(stores[k].tree, PathOf(Item(e, id)))
    requires calls[j].filePath == e && calls[j].method' == POST
    ensures answers[j].status == INTERNAL_SERVER_ERROR
            || (answers[j].status == OK && exists n: nat :: 1 <= n < id && answers[j].reply == IdReply(n))
    ensures (forall n: nat :: 1 <= n < id ==> Item(e, n) in Contents(stores[j].tree)) ==>
              answers[j].status == INTERNAL_SERVER_ERROR
  {
    assert StepAt(stores, calls, answers, j);
    NeverStoredAgain(stores, calls, answers, k, j, Item(e, id));
    NeverStoredAgain(stores, calls, answers, k, j + 1, Item(e, id));
    PostIsBelow(stores[j], stores[j + 1], calls[j], answers[j], e, id);
  }

  lemma PostIsBelow(s: Store, s': Store, call: Call, answer: Answer, e: Path, id: nat)
    requires Step(s, s', call, answer) && call.filePath == e && call.method' == POST
    requires ParseTarget(e).Collection? && id >= 1 && IsDir(s.tree, PathOf(Item(e, id)))
    requires Item(e, id) !in Contents(s.tree) && Item(e, id) !in Contents(s'.tree)
    ensures answer.status == INTERNAL_SERVER_ERROR
            || (answer.status == OK && exists n: nat :: 1 <= n < id && answer.reply == IdReply(n))
    ensures (forall n: nat :: 1 <= n < id ==> Item(e, n) in Contents(s.tree)) ==> answer.status == INTERNAL_SERVER_ERROR
  {
    PostOkOrFails(Contents(s.tree), Contents(s'.tree), e, call.body, answer);
    if answer.status == OK {
      PostBelow(Contents(s.tree), Contents(s'.tree), e, call.body, answer, id);
    }
    if forall n: nat :: 1 <= n < id ==> Item(e, n) in Contents(s.tree) {
      BlockedWhileLowerStored(s, e, id);
      ObstructedFails(s, s', call, answer);
    }
  }

  lemma PostBelow(m: map<Item, string>, m': map<Item, string>, e: Path, body: string, answer: Answer, id: nat)
    requires Answers(m, m', POST, Collection(e), body, answer.status, answer.reply) && answer.status == OK
    requires id >= 1 && Item(e, id) !in m && Item(e, id) !in m'
    ensures exists n: nat :: 1 <= n < id && answer.reply == IdReply(n)
  {
    var n := PostStores(m, m', e, body, answer);
    assert 1 <= n < id && answer.reply == IdReply(n);
  }

  lemma PostOkOrFails(m: map<Item, string>, m': map<Item, string>, e: Path, body: string, answer: Answer)
    requires answer.status == INTERNAL_SERVER_ERROR
             || Answers(m, m', POST, Collection(e), body, answer.status, answer.reply)
    ensures answer.status == OK || answer.status == INTERNAL_SERVER_ERROR
  {
  }

  // --- an example -----------------------------------------------------------------------------

  lemma {:induction false} IsAbove(t: Tree, p: Path, n: nat)
    requires WellFormed(t) && p in t && n <= |p|
    ensures p[..n] in t && (n < |p| ==> IsDir(t, p[..n]))
    decreases |p| - n
  {
    if n < |p| {
      IsAbove(t, p, n + 1);
      assert Parent(p[..n + 1]) == p[..n];
    } else {
      assert p[..n] == p;
    }
  }

  /** After a first POST to an entity that lies below `entity` under the number 1, every POST to `entity`
      itself gets 500, whatever happens in between. */
  lemma NestedEntityBlocks(stores: seq<Store>, calls: seq<Call>, answers: seq<Answer>, entity: Path, name: string,
                           j: nat)
    requires Explains(stores, calls, answers) && 0 < j < |calls|
    requires entity != [] && ParseTarget(entity).Collection? && ParseTarget(entity + [Dec(1), name]).Collection?
    requires calls[0].filePath == entity + [Dec(1), name] && calls[0].method' == POST
    requires Sound(calls[0].disk, calls[0].filePath)
    requires calls[j].filePath == entity && calls[j].method' == POST
    ensures answers[0].status == OK && answers[j].status == INTERNAL_SERVER_ERROR
  {
    assert StepAt(stores, calls, answers, 0);
    FirstPost(stores[0], stores[1], calls[0], answers[0]);
    NestedDir(stores[1], entity, name);
    BlockedForEver(stores, calls, answers, 1, j, entity, 1);
  }

  lemma NestedDir(s: Store, entity: Path, name: string)
    requires Agree(s.ids, s.tree) && Item(entity + [Dec(1), name], 1) in Contents(s.tree)
    ensures IsDir(s.tree, PathOf(Item(entity, 1)))
  {
    var i := Item(entity + [Dec(1), name], 1);
    ContentsAt(s.tree, i);
    IsAbove(s.tree, PathOf(i), |entity| + 1);
    assert PathOf(i)[..|entity| + 1] == PathOf(Item(entity, 1));
  }

  /** For example: POST to /crud/Shoes/1/laces, DELETE of its item, and POST to /crud/Shoes. */
  method LacesFirst(disk: Disk) returns (answers: seq<Answer>)
    requires Sound(disk, ["crud", "Shoes", "1", "laces", "1"])
    ensures |answers| == 3
    ensures answers[0].status == OK && answers[1].status == OK && answers[2].status == INTERNAL_SERVER_ERROR
  {
    var shoes: Path := ["crud", "Shoes"];
    var laces := shoes + [Dec(1), "laces"];
    var calls := [Call(laces, POST, "{}", disk), Call(laces + [Dec(1)], DELETE, "", disk),
                  Call(shoes, POST, "{}", disk)];
    assert Dec(1) == "1" && laces + ["1"] == ["crud", "Shoes", "1", "laces", "1"];
    assert !AllDigits("Shoes") && !AllDigits("laces") by {
      assert "Shoes"[0] == 'S' && "laces"[0] == 'l';
    }
    answers := Serve(calls);
    ghost var stores :| Explains(stores, calls, answers);
    NestedEntityBlocks(stores, calls, answers, shoes, "laces", 2);
    FirstItemDeleted(stores, calls, answers, laces);
  }

  lemma FirstItemDeleted(stores: seq<Store>, calls: seq<Call>, answers: seq<Answer>, entity: Path)
    requires Explains(stores, calls, answers) && |calls| >= 2
    requires entity != [] && ParseTarget(entity).Collection?
    requires calls[0].filePath == entity && calls[0].method' == POST && Sound(calls[0].disk, entity)
    requires calls[1].filePath == entity + [Dec(1)] && calls[1].method' == DELETE
    requires Sound(calls[1].disk, calls[1].filePath)
    ensures answers[1].status == OK
  {
    assert StepAt(stores, calls, answers, 0);
    assert StepAt(stores, calls, answers, 1);
    FirstPost(stores[0], stores[1], calls[0], answers[0]);
    PostedIdParsesBack(Item(entity, 1));
    DeleteGoesThrough(stores[1], stores[2], calls[1], answers[1], Item(entity, 1));
  }

  lemma DeleteGoesThrough(s: Store, s': Store, call: Call, answer: Answer, i: Item)
    requires Step(s, s', call, answer) && i in Contents(s.tree)
    requires call.method' == DELETE && ParseTarget(call.filePath) == Member(i) && Sound(call.disk, call.filePath)
    ensures answer.status == OK
  {
    assert !Obstructed(s, call.filePath, DELETE);
    NoFailure(s, s', call, answer);
    DeleteSucceeds(Contents(s.tree), Contents(s'.tree), i, answer);
  }

  // --- what releases a blocked id -------------------------------------------------------------

  /** The next id of `e` is `id`, and a POST to `e` cannot store it. */
  ghost predicate BlockedAt(s: Store, e: Path, id: nat) {
    e != [] && ParseTarget(e).Collection? && IsLeastFree(UsedIds(s.ids, e), id) && Blocked(s.tree, Item(e, id))
  }

  /** A DELETE that succeeds, of an item of `e` with a smaller id, or of an item whose file stands where `e`
      or a directory above it should be. */
  predicate Releases(call: Call, answer: Answer, e: Path, id: nat)
    requires call.filePath != []
  {
    && call.method' == DELETE && answer.status == OK && ParseTarget(call.filePath).Member?
    && var x := ParseTarget(call.filePath).item; (x.entity == e && x.id < id) || PathOf(x) <= e
  }

  lemma SameIndexed(s: Store, s': Store, call: Call, answer: Answer, i: Item)
    requires Step(s, s', call, answer)
    requires !(call.method' == DELETE && answer.status == OK && ParseTarget(call.filePath) == Member(i))
    requires !(call.method' == POST && answer.status == OK && call.filePath == i.entity)
    ensures Indexed(s'.ids, i) <==> Indexed(s.ids, i)
  {
    IndexedIffStored(s.ids, s.tree, i);
    IndexedIffStored(s'.ids, s'.tree, i);
    if i in Contents(s.tree) && i !in Contents(s'.tree) {
      TakenBy(s, s', call, answer, i);
    } else if i !in Contents(s.tree) && i in Contents(s'.tree) {
      AddedBy(s, s', call, answer, i);
    }
  }

  lemma IdStays(s: Store, s': Store, call: Call, answer: Answer, e: Path, id: nat, n: nat)
    requires Step(s, s', call, answer) && BlockedAt(s, e, id) && !Releases(call, answer, e, id) && n <= id
    requires call.method' == POST && call.filePath == e ==> answer.status == INTERNAL_SERVER_ERROR
    ensures Indexed(s'.ids, Item(e, n)) <==> Indexed(s.ids, Item(e, n))
  {
    NotStored(s, e, id);
    if n == id && call.method' == DELETE && answer.status == OK {
      DeleteTakes(s, s', call, answer);
    }
    SameIndexed(s, s', call, answer, Item(e, n));
  }

  lemma LeastFreeStays(s: Store, s': Store, call: Call, answer: Answer, e: Path, id: nat)
    requires Step(s, s', call, answer) && BlockedAt(s, e, id) && !Releases(call, answer, e, id)
    ensures IsLeastFree(UsedIds(s'.ids, e), id)
  {
    BlockedPostFails(s, s', call, answer, e, id);
    forall n: nat | n <= id
      ensures Indexed(s'.ids, Item(e, n)) <==> Indexed(s.ids, Item(e, n))
    {
      IdStays(s, s', call, answer, e, id, n);
    }
    SameLeastFree(s.ids, s'.ids, e, id);
  }

  lemma BlockedPostFails(s: Store, s': Store, call: Call, answer: Answer, e: Path, id: nat)
    requires Step(s, s', call, answer) && BlockedAt(s, e, id)
    ensures call.method' == POST && call.filePath == e ==> answer.status == INTERNAL_SERVER_ERROR
  {
    if call.method' == POST && call.filePath == e {
      ObstructedFails(s, s', call, answer);
    }
  }

  lemma SameLeastFree(ids: Ids, ids': Ids, e: Path, id: nat)
    requires forall n: nat :: n <= id ==> (Indexed(ids', Item(e, n)) <==> Indexed(ids, Item(e, n)))
    requires IsLeastFree(UsedIds(ids, e), id)
    ensures IsLeastFree(UsedIds(ids', e), id)
  {
    forall n: nat | n <= id
      ensures n in UsedIds(ids', e) <==> n in UsedIds(ids, e)
    {
      assert Indexed(ids', Item(e, n)) <==> Indexed(ids, Item(e, n));
    }
  }

  lemma NotStored(s: Store, e: Path, id: nat)
    requires Agree(s.ids, s.tree) && BlockedAt(s, e, id)
    ensures Item(e, id) !in Contents(s.tree)
  {
    IndexedIffStored(s.ids, s.tree, Item(e, id));
  }

  lemma ObstacleStays(s: Store, s': Store, call: Call, answer: Answer, e: Path, id: nat)
    requires Step(s, s', call, answer) && KeysOk(s) && BlockedAt(s, e, id) && !Releases(call, answer, e, id)
    ensures Blocked(s'.tree, Item(e, id))
  {
    var p := PathOf(Item(e, id));
    if p in s.tree {
      ItemAtPathOf(Item(e, id));
      PathOfIsNumbered(Item(e, id));
      NumberedDirStays(s, s', call, answer, p);
    } else {
      var m :| 0 <= m <= |e| && IsFile(s.tree, e[..m]);
      FileStays(s, s', call, answer, e[..m]);
      assert e[..m] <= e;
    }
  }

  lemma FileStays(s: Store, s': Store, call: Call, answer: Answer, p: Path)
    requires Step(s, s', call, answer) && IsFile(s.tree, p)
    requires !(call.method' == DELETE && answer.status == OK && p != []
               && ParseTarget(call.filePath) == Member(ItemAt(p)))
    ensures IsFile(s'.tree, p) && p != [] && PathOf(ItemAt(p)) == p
  {
    var i := ItemAt(p);
    ContentsAt(s.tree, i);
    ContentsAt(s'.tree, i);
    if i !in Contents(s'.tree) {
      TakenBy(s, s', call, answer, i);
    }
  }

  lemma BlockStays(s: Store, s': Store, call: Call, answer: Answer, e: Path, id: nat)
    requires Step(s, s', call, answer) && KeysOk(s) && BlockedAt(s, e, id) && !Releases(call, answer, e, id)
    ensures BlockedAt(s', e, id)
  {
    LeastFreeStays(s, s', call, answer, e, id);
    ObstacleStays(s, s', call, answer, e, id);
  }

  /** Where a file is, nothing is above or below it but directories above. */
  lemma NothingBelowFile(t: Tree, p: Path, m: nat)
    requires WellFormed(t) && m < |p| && !IsDir(t, p[..m])
    ensures p !in t
  {
    if p in t {
      IsAbove(t, p, m);
    }
  }

  /** After the body of `x` is gone nothing stands at its path. */
  lemma PathIsFree(s: Store, s': Store, call: Call, answer: Answer, x: Item)
    requires Step(s, s', call, answer) && call.method' == DELETE && answer.status == OK
    requires ParseTarget(call.filePath) == Member(x)
    ensures x.entity != [] && IsFile(s.tree, PathOf(x)) && PathOf(x) !in s'.tree
  {
    DeleteTakes(s, s', call, answer);
    ContentsAt(s.tree, x);
    ContentsAt(s'.tree, x);
    IndexedIffStored(s.ids, s.tree, x);
    assert Gains(s.tree, s'.tree, call.filePath, call.method');
  }

  /** A file that is there after a DELETE was there before. */
  lemma FilesOnlyGo(s: Store, s': Store, call: Call, answer: Answer, p: Path)
    requires Step(s, s', call, answer) && call.method' == DELETE && answer.status == OK && IsFile(s'.tree, p)
    ensures IsFile(s.tree, p)
  {
    DeleteTakes(s, s', call, answer);
    ContentsAt(s.tree, ItemAt(p));
    ContentsAt(s'.tree, ItemAt(p));
  }

  /** With a smaller id free again, that id is the next one, and nothing is in its way. */
  lemma LowerIdReleases(s: Store, s': Store, call: Call, answer: Answer, e: Path, id: nat, x: Item)
    requires Step(s, s', call, answer) && BlockedAt(s, e, id)
    requires call.method' == DELETE && answer.status == OK && ParseTarget(call.filePath) == Member(x)
    requires x.entity == e && x.id < id
    ensures IsLeastFree(UsedIds(s'.ids, e), x.id) && !Blocked(s'.tree, Item(e, x.id))
  {
    PathIsFree(s, s', call, answer, x);
    NextIsLower(s, s', call, answer, x);
    forall m | 0 <= m <= |e|
      ensures !IsFile(s'.tree, e[..m])
    {
      IsAbove(s.tree, PathOf(x), m);
      assert PathOf(x)[..m] == e[..m];
      if IsFile(s'.tree, e[..m]) {
        FilesOnlyGo(s, s', call, answer, e[..m]);
      }
    }
  }

  lemma NextIsLower(s: Store, s': Store, call: Call, answer: Answer, x: Item)
    requires Step(s, s', call, answer) && call.method' == DELETE && answer.status == OK
    requires ParseTarget(call.filePath) == Member(x)
    requires exists id: nat :: x.id < id && IsLeastFree(UsedIds(s.ids, x.entity), id)
    ensures IsLeastFree(UsedIds(s'.ids, x.entity), x.id)
  {
    DeleteTakes(s, s', call, answer);
    forall n: nat
      ensures n in UsedIds(s'.ids, x.entity) <==> n in UsedIds(s.ids, x.entity) && n != x.id
    {
      IndexedIffStored(s.ids, s.tree, Item(x.entity, n));
      IndexedIffStored(s'.ids, s'.tree, Item(x.entity, n));
    }
    IndexedIffStored(s.ids, s.tree, x);
  }

  /** With the file above the entity gone, nothing is in the way of any of its ids. */
  lemma FileGoneReleases(s: Store, s': Store, call: Call, answer: Answer, e: Path, n: nat, x: Item)
    requires Step(s, s', call, answer) && call.method' == DELETE && answer.status == OK
    requires ParseTarget(call.filePath) == Member(x) && PathOf(x) <= e
    ensures !Blocked(s'.tree, Item(e, n))
  {
    PathIsFree(s, s', call, answer, x);
    var k := |PathOf(x)|;
    assert e[..k] == PathOf(x);
    var p := PathOf(Item(e, n));
    assert p[..k] == PathOf(x);
    NothingBelowFile(s'.tree, p, k);
    forall m | 0 <= m <= |e|
      ensures !IsFile(s'.tree, e[..m])
    {
      if m > k {
        assert e[..m][..k] == PathOf(x);
        NothingBelowFile(s'.tree, e[..m], k);
      } else if m < k {
        IsAbove(s.tree, PathOf(x), m);
        assert PathOf(x)[..m] == e[..m];
        if IsFile(s'.tree, e[..m]) {
          FilesOnlyGo(s, s', call, answer, e[..m]);
        }
      }
    }
  }

  /** A blocked id stays blocked through a request exactly if that does not release it. */
  lemma BlockReleasedIff(s: Store, s': Store, call: Call, answer: Answer, e: Path, id: nat)
    requires Step(s, s', call, answer) && KeysOk(s) && BlockedAt(s, e, id)
    ensures Obstructed(s', e, POST) <==> !Releases(call, answer, e, id)
    ensures !Releases(call, answer, e, id) ==> BlockedAt(s', e, id)
  {
    if !Releases(call, answer, e, id) {
      BlockStays(s, s', call, answer, e, id);
    } else {
      Released(s, s', call, answer, e, id);
    }
  }

  lemma Released(s: Store, s': Store, call: Call, answer: Answer, e: Path, id: nat)
    requires Step(s, s', call, answer) && BlockedAt(s, e, id) && Releases(call, answer, e, id)
    ensures !Obstructed(s', e, POST)
  {
    var x := ParseTarget(call.filePath).item;
    if PathOf(x) <= e {
      forall n: nat
        ensures !Blocked(s'.tree, Item(e, n))
      {
        FileGoneReleases(s, s', call, answer, e, n, x);
      }
    } else {
      LowerIdReleases(s, s', call, answer, e, id, x);
      LeastFreeUnique(UsedIds(s'.ids, e), x.id);
    }
  }

  /** In every sequence of requests, a POST to an entity whose next id is blocked gets 500 until a request
      releases it, and then it is released. */
  lemma BlockedUntilReleased(stores: seq<Store>, calls: seq<Call>, answers: seq<Answer>, k: nat, j: nat, e: Path,
                             id: nat)
    requires Explains(stores, calls, answers) && k <= j < |calls| && BlockedAt(stores[k], e, id)
    requires forall i :: k <= i < j ==> calls[i].filePath != [] && !Releases(calls[i], answers[i], e, id)
    ensures calls[j].filePath == e && calls[j].method' == POST ==> answers[j].status == INTERNAL_SERVER_ERROR
    ensures calls[j].filePath != [] && (Obstructed(stores[j + 1], e, POST) <==> !Releases(calls[j], answers[j], e, id))
  {
    var holds := (i: nat) => i < |stores| && BlockedAt(stores[i], e, id);
    forall i | k <= i < j
      ensures Keeps(holds, i)
    {
      if holds(i) {
        BlockedNext(stores, calls, answers, i, e, id);
      }
    }
    Lasts(holds, k, j);
    BlockedNext(stores, calls, answers, j, e, id);
  }

  lemma BlockedNext(stores: seq<Store>, calls: seq<Call>, answers: seq<Answer>, i: nat, e: Path, id: nat)
    requires Explains(stores, calls, answers) && i < |calls| && BlockedAt(stores[i], e, id)
    ensures calls[i].filePath != []
    ensures calls[i].filePath == e && calls[i].method' == POST ==> answers[i].status == INTERNAL_SERVER_ERROR
    ensures Obstructed(stores[i + 1], e, POST) <==> !Releases(calls[i], answers[i], e, id)
    ensures !Releases(calls[i], answers[i], e, id) ==> BlockedAt(stores[i + 1], e, id)
  {
    KeysAlways(stores, calls, answers, i);
    assert StepAt(stores, calls, answers, i);
    BlockedPostFails(stores[i], stores[i + 1], calls[i], answers[i], e, id);
    BlockReleasedIff(stores[i], stores[i + 1], calls[i], answers[i], e, id);
  }
}
