/** `CrudHandler`: the handlers of one factory over its index of ids and the file tree, proved to act as
    one map from (entity, id) to bodies. */
module CrudHandler {
  import opened Decimal
  import opened FileTree

  // --- targets ------------------------------------------------------------------------------

  /** `Collection` is the pair (entity, -1) of `ParseTarget`; `TooBig` is `stoi` throwing out_of_range. */
  datatype Target = Collection(entity: Path) | Member(item: Item) | TooBig

  datatype Item = Item(entity: Path, id: nat)

  function ParseTarget(filePath: Path): (t: Target)
    requires filePath != []
  {
    var fileName := filePath[|filePath| - 1];
    if !AllDigits(fileName) then Collection(filePath)
    else if Value(fileName) > INT_MAX then TooBig
    else Member(Item(Parent(filePath), Value(fileName)))
  }

  /** Where the body of an item is stored. */
  function PathOf(i: Item): (p: Path)
    ensures p != []
  {
    i.entity + [Dec(i.id)]
  }

  function ItemAt(p: Path): Item
    requires p != []
  {
    Item(Parent(p), Value(p[|p| - 1]))
  }

  lemma ItemAtPathOf(i: Item)
    ensures ItemAt(PathOf(i)) == i
  {
    ValueOfDec(i.id);
    assert Parent(PathOf(i)) == i.entity;
  }

  /** The id of a POST reply, put behind the entity's path, names the same item again: later requests
      for it reach the file that POST wrote. */
  lemma PostedIdParsesBack(i: Item)
    requires i.id <= INT_MAX
    ensures ParseTarget(i.entity + [Dec(i.id)]) == Member(i)
  {
    ValueOfDec(i.id);
    ItemAtPathOf(i);
  }

  /** Only a number written with leading zeros names an item by another path than its own. */
  lemma OwnPathIff(filePath: Path, i: Item)
    requires filePath != [] && filePath[|filePath| - 1] != "" && ParseTarget(filePath) == Member(i)
    ensures var s := filePath[|filePath| - 1]; PathOf(i) == filePath <==> s == "0" || s[0] != '0'
  {
    var s := filePath[|filePath| - 1];
    DecOfValueIff(s);
    assert filePath == Parent(filePath) + [s];
    assert PathOf(i)[|filePath| - 1] == Dec(i.id);
  }

  // --- ids ----------------------------------------------------------------------------------

  type Ids = map<Path, set<nat>>

  predicate Indexed(ids: Ids, i: Item) { i.entity in ids && i.id in ids[i.entity] }

  predicate IsLeastFree(used: set<nat>, id: nat) {
    id >= 1 && id !in used && forall k :: 1 <= k < id ==> k in used
  }

  function UsedIds(ids: Ids, entity: Path): set<nat> {
    if entity in ids then ids[entity] else {}
  }

  lemma LeastFreeUnique(used: set<nat>, id: nat)
    requires IsLeastFree(used, id)
    ensures forall id': nat :: IsLeastFree(used, id') ==> id' == id
  {
    forall id': nat | IsLeastFree(used, id')
      ensures id' == id
    {
      assert id' < id ==> id' in used;
      assert id < id' ==> id in used;
    }
  }

  function UpTo(n: nat): (s: set<nat>)
    ensures forall k :: k in s <==> 1 <= k <= n
  {
    if n == 0 then {} else UpTo(n - 1) + {n}
  }

  lemma {:induction false} UpToSize(n: nat)
    ensures |UpTo(n)| == n
  {
    if n > 0 {
      UpToSize(n - 1);
    }
  }

  /** The pigeonhole step: a set that holds 1..n has at least n elements. */
  lemma HoldsUpTo(used: set<nat>, n: nat)
    requires forall k :: 1 <= k <= n ==> k in used
    ensures |used| >= n
  {
    UpToSize(n);
    SubsetSize(UpTo(n), used);
  }

  lemma {:induction false} SubsetSize(a: set<nat>, b: set<nat>)
    requires a <= b
    ensures |a| <= |b|
    decreases a
  {
    if a != {} {
      var x :| x in a;
      SubsetSize(a - {x}, b - {x});
    }
  }

  // --- index and files ----------------------------------------------------------------------

  /** The index and the regular files agree: the files are exactly those of the indexed items. */
  ghost predicate Agree(ids: Ids, t: Tree) {
    && WellFormed(t)
    && (forall i: Item :: Indexed(ids, i) ==> i.entity != [] && i.id >= 1 && IsFile(t, PathOf(i)))
    && (forall p :: IsFile(t, p) ==> p != [] && Indexed(ids, ItemAt(p)) && p == PathOf(ItemAt(p)))
  }

  /** What is stored, as a map. */
  ghost function Contents(t: Tree): (m: map<Item, string>) {
    map i: Item | i in (set p | p in t && p != [] :: ItemAt(p)) && IsFile(t, PathOf(i)) :: t[PathOf(i)].content
  }

  lemma ContentsAt(t: Tree, i: Item)
    ensures i in Contents(t) <==> IsFile(t, PathOf(i))
    ensures i in Contents(t) ==> Contents(t)[i] == t[PathOf(i)].content
  {
    ItemAtPathOf(i);
  }

  lemma PathOfInjective(i: Item, j: Item)
    requires PathOf(i) == PathOf(j)
    ensures i == j
  {
    ItemAtPathOf(i);
    ItemAtPathOf(j);
  }

  lemma SameFilesSameContents(t: Tree, t': Tree)
    requires SameFiles(t, t')
    ensures Contents(t') == Contents(t)
  {
    forall i: Item
      ensures i in Contents(t) <==> i in Contents(t')
      ensures i in Contents(t) ==> Contents(t)[i] == Contents(t')[i]
    {
      ContentsAt(t, i);
      ContentsAt(t', i);
    }
  }

  lemma SameFilesAgree(ids: Ids, t: Tree, t': Tree)
    requires Agree(ids, t) && SameFiles(t, t') && WellFormed(t')
    ensures Agree(ids, t') && Contents(t') == Contents(t)
  {
    SameFilesSameContents(t, t');
  }

  /** Writing the file of one item changes that item only. */
  lemma WriteOne(t: Tree, t': Tree, i: Item, body: string)
    requires forall p :: p != PathOf(i) ==> (IsFile(t, p) <==> IsFile(t', p)) && (IsFile(t, p) ==> t'[p] == t[p])
    requires IsFile(t', PathOf(i)) && t'[PathOf(i)].content == body
    ensures Contents(t') == Contents(t)[i := body]
  {
    forall j: Item
      ensures j in Contents(t') <==> j in Contents(t)[i := body]
      ensures j in Contents(t') ==> Contents(t')[j] == Contents(t)[i := body][j]
    {
      ContentsAt(t, j);
      ContentsAt(t', j);
      if PathOf(j) == PathOf(i) {
        PathOfInjective(j, i);
      }
    }
  }

  lemma EraseOne(t: Tree, t': Tree, i: Item)
    requires forall p :: p != PathOf(i) ==> (IsFile(t, p) <==> IsFile(t', p)) && (IsFile(t, p) ==> t'[p] == t[p])
    requires !IsFile(t', PathOf(i))
    ensures Contents(t') == Contents(t) - {i}
  {
    forall j: Item
      ensures j in Contents(t') <==> j in Contents(t) - {i}
      ensures j in Contents(t') ==> Contents(t')[j] == (Contents(t) - {i})[j]
    {
      ContentsAt(t, j);
      ContentsAt(t', j);
      if PathOf(j) == PathOf(i) {
        PathOfInjective(j, i);
      }
    }
  }

  function Insert(ids: Ids, i: Item): (r: Ids) { ids[i.entity := UsedIds(ids, i.entity) + {i.id}] }

  function Erase(ids: Ids, i: Item): (r: Ids) { ids[i.entity := UsedIds(ids, i.entity) - {i.id}] }

  /** Between creating the file and inserting its id the two differ by that item; then they agree. */
  lemma CreateAgrees(ids: Ids, t: Tree, i: Item, body: string)
    requires Agree(ids, t) && i.entity != [] && i.id >= 1
    requires PathOf(i) !in t && IsDir(t, i.entity)
    ensures var t' := t[PathOf(i) := File(body)];
            Agree(Insert(ids, i), t') && Contents(t') == Contents(t)[i := body]
  {
    var t', p := t[PathOf(i) := File(body)], PathOf(i);
    ItemAtPathOf(i);
    assert Parent(p) == i.entity;
    WriteOne(t, t', i, body);
    forall j: Item | Indexed(Insert(ids, i), j)
      ensures j.entity != [] && j.id >= 1 && IsFile(t', PathOf(j))
    {
      if j != i {
        assert Indexed(ids, j);
      }
    }
  }

  /** Between deleting the file and erasing its id the two differ by that item; then they agree. */
  lemma DeleteAgrees(ids: Ids, t: Tree, i: Item, prunes: bool)
    requires Agree(ids, t) && Indexed(ids, i)
    ensures var (t', ok) := DeleteFile(t, PathOf(i), true, prunes);
            ok && Agree(Erase(ids, i), t') && Contents(t') == Contents(t) - {i}
  {
    var p := PathOf(i);
    var t' := DeleteFile(t, p, true, prunes).0;
    ItemAtPathOf(i);
    DeleteFileMeans(t, p, true, prunes);
    assert IsDir(t, Parent(p));
    OneFileGone(t, t', p);
    EraseOne(t, t', i);
    IndexWithout(ids, t, t', i);
  }

  lemma OneFileGone(t: Tree, t': Tree, p: Path)
    requires p != [] && IsDir(t, Parent(p)) && (t' == t - {p} || t' == t - {p} - {Parent(p)})
    ensures forall q :: q != p ==> (IsFile(t, q) <==> IsFile(t', q)) && (IsFile(t, q) ==> t'[q] == t[q])
    ensures !IsFile(t', p)
  {
  }

  lemma IndexWithout(ids: Ids, t: Tree, t': Tree, i: Item)
    requires Agree(ids, t) && Indexed(ids, i) && WellFormed(t')
    requires forall q :: q != PathOf(i) ==> (IsFile(t, q) <==> IsFile(t', q))
    requires !IsFile(t', PathOf(i))
    ensures Agree(Erase(ids, i), t')
  {
    forall j: Item | Indexed(Erase(ids, i), j)
      ensures j.entity != [] && j.id >= 1 && IsFile(t', PathOf(j))
    {
      assert Indexed(ids, j) && j != i;
      if PathOf(j) == PathOf(i) {
        PathOfInjective(j, i);
      }
    }
    forall q | IsFile(t', q)
      ensures q != [] && Indexed(Erase(ids, i), ItemAt(q)) && q == PathOf(ItemAt(q))
    {
      assert IsFile(t, q);
    }
  }

  lemma OverwriteAgrees(ids: Ids, t: Tree, i: Item, body: string)
    requires Agree(ids, t) && Indexed(ids, i)
    ensures var t' := t[PathOf(i) := File(body)];
            Agree(ids, t') && Contents(t') == Contents(t)[i := body]
  {
    var t', p := t[PathOf(i) := File(body)], PathOf(i);
    assert IsFile(t, p);
    WriteOne(t, t', i, body);
    assert forall q :: IsFile(t', q) <==> IsFile(t, q);
  }

  lemma IndexedIffStored(ids: Ids, t: Tree, i: Item)
    requires Agree(ids, t)
    ensures Indexed(ids, i) <==> i in Contents(t)
  {
    ContentsAt(t, i);
    ItemAtPathOf(i);
  }

  // --- replies ------------------------------------------------------------------------------

  datatype Status = OK | BAD_REQUEST | NOT_FOUND | INTERNAL_SERVER_ERROR | THROWN

  datatype Method = POST | GET | PUT | DELETE | OTHER

  /** What the disk does during one request: how many directories it makes for the root and for the
      entity, whether it opens files, how many chunks it reads, whether it removes files and directories. */
  datatype Disk = Disk(rootDirs: nat, entityDirs: nat, opens: bool, chunks: nat, removes: bool, prunes: bool)

  function IdReply(id: nat): (s: string) { "{\"id\": " + Dec(id) + "}\n\n" }

  /** The first name, and the others behind a comma and a space each. */
  function CommaJoined(names: seq<string>): (s: string) {
    if names == [] then "" else names[0] + CommaSpaced(names[1..])
  }

  function CommaSpaced(names: seq<string>): (s: string) {
    if names == [] then "" else ", " + names[0] + CommaSpaced(names[1..])
  }

  function ListReply(names: seq<string>): (s: string) { "[" + CommaJoined(names) + "]\n\n" }

  /** The names with a comma and a space behind each, as the loop of `HandleGet` writes them. */
  function Listed(names: seq<string>): (s: string) {
    if names == [] then "" else names[0] + ", " + Listed(names[1..])
  }

  lemma {:induction false} ListedJoined(names: seq<string>)
    requires names != []
    ensures Listed(names) == CommaJoined(names) + ", "
  {
    var rest := names[1..];
    if rest == [] {
      assert names[0] + ", " + "" == (names[0] + "") + ", ";
    } else {
      ListedJoined(rest);
      assert names[0] + ", " + (CommaJoined(rest) + ", ")
          == (names[0] + (", " + rest[0] + CommaSpaced(rest[1..]))) + ", ";
    }
  }

  /** `names` are the ids stored for `entity`, each once. */
  ghost predicate NamesOf(m: map<Item, string>, entity: Path, names: seq<string>) {
    && (forall n: nat :: Item(entity, n) in m <==> Dec(n) in names)
    && (forall s :: s in names ==> exists n: nat :: s == Dec(n))
    && (forall i, j :: 0 <= i < j < |names| ==> names[i] != names[j])
  }

  /** The requests that are wrong whatever is stored. */
  predicate Malformed(method': Method, target: Target) {
    || method' == OTHER
    || (method' == POST && target.Member?)
    || ((method' == PUT || method' == DELETE) && target.Collection?)
  }

  /** The reference: how one request may change the stored map, and what it may answer. */
  ghost predicate Answers(m: map<Item, string>, m': map<Item, string>, method': Method, target: Target, body: string,
                          status: Status, reply: string)
  {
    && (status != OK ==> m' == m)
    && (status == THROWN <==> target.TooBig?)
    && (!target.TooBig? ==>
      && (status == BAD_REQUEST <==> Malformed(method', target))
      && (status == NOT_FOUND <==> !Malformed(method', target) && target.Member? && target.item !in m)
      && (status == OK ==>
            match target
            case Collection(e) =>
              if method' == POST then Posted(m, m', e, body, reply)
              else m' == m && exists names :: NamesOf(m, e, names) && reply == ListReply(names)
            case Member(i) =>
              if method' == PUT then m' == m[i := body] && reply == IdReply(i.id)
              else if method' == DELETE then m' == m - {i} && reply == IdReply(i.id)
              else m' == m && reply == m[i]
            case TooBig => false))
  }

  /** A node stands in the way of a new item: a file where the entity's directory or one above it should
      be, or anything at the item's own path. */
  ghost predicate Blocked(t: Tree, i: Item) {
    PathOf(i) in t || exists j :: 0 <= j <= |i.entity| && IsFile(t, i.entity[..j])
  }

  ghost predicate Posted(m: map<Item, string>, m': map<Item, string>, e: Path, body: string, reply: string) {
    exists id: nat ::
      && id >= 1 && Item(e, id) !in m && (forall k: nat :: 1 <= k < id ==> Item(e, k) in m)
      && m' == m[Item(e, id) := body] && reply == IdReply(id)
  }

  /** The index and the files. */
  datatype Store = Store(ids: Ids, tree: Tree)

  /** What a request does to directories and to the keys of the index. A directory appears only on the way
      to the path of the request, and one longer than the root only for a POST; only a DELETE that removed
      the last node of an entity's directory makes one go. Only a POST adds a key, and no key ever goes. */
  ghost predicate Tracks(s: Store, s': Store, filePath: Path, method': Method, status: Status, prunes: bool)
    requires filePath != []
  {
    var target := ParseTarget(filePath);
    && s'.ids.Keys == s.ids.Keys + (if method' == POST && status == OK then {filePath} else {})
    && Gains(s.tree, s'.tree, filePath, method')
    && forall p :: IsDir(s.tree, p) ==> (!IsDir(s'.tree, p) <==> Prunes(s.tree, p, method', target, status, prunes))
  }

  ghost predicate Gains(t: Tree, t': Tree, filePath: Path, method': Method) {
    forall p :: IsDir(t', p) && !IsDir(t, p) ==> p <= filePath && (|p| <= 1 || method' == POST)
  }

  predicate Prunes(t: Tree, p: Path, method': Method, target: Target, status: Status, prunes: bool) {
    && method' == DELETE && status == OK && target.Member? && p == target.item.entity
    && prunes && !HasSibling(t, PathOf(target.item))
  }

  lemma NothingTracks(s: Store, filePath: Path, method': Method, status: Status, prunes: bool)
    requires filePath != [] && (status == OK ==> method' == GET || method' == PUT)
    ensures Tracks(s, s, filePath, method', status, prunes)
  {
  }

  lemma PutTracks(s: Store, s': Store, filePath: Path, p: Path, body: string, prunes: bool)
    requires filePath != [] && IsFile(s.tree, p) && s' == s.(tree := s.tree[p := File(body)])
    ensures Tracks(s, s', filePath, PUT, OK, prunes)
  {
  }

  lemma DirsAfterDelete(t: Tree, t': Tree, p: Path, pruned: bool)
    requires p != [] && IsFile(t, p) && t' == if pruned then t - {p} - {Parent(p)} else t - {p}
    ensures forall q :: IsDir(t, q) ==> (!IsDir(t', q) <==> pruned && q == Parent(p))
    ensures forall q :: IsDir(t', q) ==> IsDir(t, q)
  {
  }

  lemma DeleteTracks(s: Store, s': Store, filePath: Path, prunes: bool)
    requires filePath != [] && ParseTarget(filePath).Member?
    requires Agree(s.ids, s.tree) && Indexed(s.ids, ParseTarget(filePath).item)
    requires var i := ParseTarget(filePath).item;
             s' == Store(Erase(s.ids, i), DeleteFile(s.tree, PathOf(i), true, prunes).0)
    ensures Tracks(s, s', filePath, DELETE, OK, prunes)
  {
    var i := ParseTarget(filePath).item;
    var p := PathOf(i);
    DeleteFileMeans(s.tree, p, true, prunes);
    assert Parent(p) == i.entity;
    DirsAfterDelete(s.tree, s'.tree, p, prunes && !HasSibling(s.tree, p));
  }

  /** A POST that made some directories, and perhaps its file. */
  lemma PostTracks(s: Store, t1: Tree, s': Store, filePath: Path, i: Item, body: string, status: Status, prunes: bool)
    requires filePath != [] && Grown(s.tree, t1, filePath) && i.entity == filePath
    requires status == OK ==> PathOf(i) !in t1
    requires s' == if status == OK then Store(Insert(s.ids, i), t1[PathOf(i) := File(body)]) else Store(s.ids, t1)
    ensures Tracks(s, s', filePath, POST, status, prunes)
  {
  }

  /** Making the directory of a new item: what may be in the way. */
  lemma EntityDirMeans(t: Tree, i: Item, budget: nat)
    requires WellFormed(t)
    ensures var (t1, made) := CreateDir(t, i.entity, budget);
            && WellFormed(t1) && Grown(t, t1, i.entity) && (PathOf(i) in t <==> PathOf(i) in t1)
            && (made ==> IsDir(t1, i.entity) && (Blocked(t, i) <==> PathOf(i) in t1))
            && (!made && budget > |i.entity| ==> Blocked(t, i))
  {
    CreateDirMeans(t, i.entity, budget);
    assert !(PathOf(i) <= i.entity);
  }

  /** A POST that went through. */
  lemma PostAnswers(s: Store, t1: Tree, i: Item, body: string)
    requires Agree(s.ids, s.tree) && IsLeastFree(UsedIds(s.ids, i.entity), i.id) && i.entity != []
    requires WellFormed(t1) && Grown(s.tree, t1, i.entity) && IsDir(t1, i.entity) && PathOf(i) !in t1
    ensures var t' := t1[PathOf(i) := File(body)];
            Agree(Insert(s.ids, i), t') && Posted(Contents(s.tree), Contents(t'), i.entity, body, IdReply(i.id))
  {
    SameFilesAgree(s.ids, s.tree, t1);
    CreateAgrees(s.ids, t1, i, body);
    LeastFreeInStore(s.ids, s.tree, i);
  }

  /** One request to the factory's handlers. */
  datatype Call = Call(filePath: Path, method': Method, body: string, disk: Disk)

  datatype Answer = Answer(status: Status, reply: string)

  /** The disk does what this request needs of it. */
  ghost predicate Willing(s: Store, call: Call)
    requires call.filePath != []
  {
    var m, target, disk := Contents(s.tree), ParseTarget(call.filePath), call.disk;
    && disk.rootDirs > 1
    && match call.method'
       case POST => disk.entityDirs > |call.filePath| && disk.opens
       case PUT => disk.opens
       case DELETE => disk.removes
       case GET => target.Member? && target.item in m ==> disk.opens && disk.chunks > |m[target.item]| / CHUNK
       case OTHER => true
  }

  /** What makes a request fail whatever the disk does: a POST whose id is blocked, and the listing of an
      entity that is in the index and whose directory is gone. The root itself is made again first. */
  ghost predicate Obstructed(s: Store, filePath: Path, method': Method)
    requires filePath != []
  {
    && ParseTarget(filePath).Collection?
    && match method'
       case POST => exists id: nat :: IsLeastFree(UsedIds(s.ids, filePath), id) && Blocked(s.tree, Item(filePath, id))
       case GET => |filePath| > 1 && filePath in s.ids && !IsDir(s.tree, filePath)
       case _ => false
  }

  lemma PostObstructedIff(s: Store, call: Call, status: Status)
    requires call.filePath != [] && call.method' == POST
    requires status == INTERNAL_SERVER_ERROR ==> ParseTarget(call.filePath).Collection?
    requires ParseTarget(call.filePath).Collection? ==>
               forall id: nat :: IsLeastFree(UsedIds(s.ids, call.filePath), id) ==>
                 && (Blocked(s.tree, Item(call.filePath, id)) ==> status == INTERNAL_SERVER_ERROR)
                 && (status == INTERNAL_SERVER_ERROR && call.disk.entityDirs > |call.filePath| && call.disk.opens ==>
                       Blocked(s.tree, Item(call.filePath, id)))
    ensures Obstructed(s, call.filePath, POST) ==> status == INTERNAL_SERVER_ERROR
    ensures Willing(s, call) && status == INTERNAL_SERVER_ERROR ==> Obstructed(s, call.filePath, POST)
  {
    var id := LeastFreeExists(UsedIds(s.ids, call.filePath));
  }

  lemma LeastFreeExists(used: set<nat>) returns (id: nat)
    ensures IsLeastFree(used, id)
  {
    id := 1;
    while id in used
      invariant 1 <= id && forall k :: 1 <= k < id ==> k in used
      decreases |used| + 1 - id
    {
      HoldsUpTo(used, id);
      id := id + 1;
    }
  }

  // --- the handler --------------------------------------------------------------------------

  /** The map of ids that all handlers of one factory share. */
  class EntityIndex {
    var ids: Ids

    constructor ()
      ensures ids == map[]
    {
      ids := map[];
    }
  }

  class CrudHandler {
    const filePath: Path
    const index: EntityIndex
    const manager: CrudFileSystemManager

    ghost predicate Valid()
      reads index, manager
    {
      filePath != [] && Agree(index.ids, manager.tree)
    }

    ghost function Stored(): map<Item, string>
      reads manager
    {
      Contents(manager.tree)
    }

    ghost function Now(): Store
      reads index, manager
    {
      Store(index.ids, manager.tree)
    }

    constructor (filePath: Path, index: EntityIndex, manager: CrudFileSystemManager)
      requires filePath != [] && Agree(index.ids, manager.tree)
      ensures Valid() && this.filePath == filePath && this.index == index && this.manager == manager
    {
      this.filePath, this.index, this.manager := filePath, index, manager;
    }

    /** The lowest id not in use, found by looking only at 1..size. */
    method GetNextID(entity: Path) returns (nextId: nat)
      ensures IsLeastFree(UsedIds(index.ids, entity), nextId)
    {
      if entity !in index.ids { return 1; }
      var used := index.ids[entity];
      nextId := 1;
      while nextId <= |used|
        invariant 1 <= nextId <= |used| + 1
        invariant forall k :: 1 <= k < nextId ==> k in used
      {
        if nextId !in used { return nextId; }
        nextId := nextId + 1;
      }
      assert nextId !in used by {
        if nextId in used {
          HoldsUpTo(used, nextId);
        }
      }
    }

    method HandlePost(body: string, disk: Disk) returns (status: Status, reply: string)
      requires Valid()
      modifies index, manager
      ensures Valid()
      ensures Answers(old(Stored()), Stored(), POST, ParseTarget(filePath), body, status, reply)
      ensures ParseTarget(filePath).Collection? ==>
                forall id: nat :: IsLeastFree(UsedIds(old(index.ids), filePath), id) ==>
                  && (Blocked(old(manager.tree), Item(filePath, id)) ==> status == INTERNAL_SERVER_ERROR)
                  && (status == INTERNAL_SERVER_ERROR && disk.entityDirs > |filePath| && disk.opens ==>
                        Blocked(old(manager.tree), Item(filePath, id)))
      ensures Tracks(old(Now()), Now(), filePath, POST, status, disk.prunes)
    {
      reply := "";
      ghost var s := Now();
      NothingTracks(s, filePath, POST, THROWN, disk.prunes);
      var target := ParseTarget(filePath);
      if target.TooBig? { return THROWN, reply; }
      if target.Member? { return BAD_REQUEST, reply; }
      var entity := target.entity;
      var id := GetNextID(entity);
      var i := Item(entity, id);
      EntityDirMeans(s.tree, i, disk.entityDirs);
      LeastFreeUnique(UsedIds(index.ids, entity), id);
      var made := manager.CreateDirectory(entity, disk.entityDirs);
      ghost var t1 := manager.tree;
      SameFilesAgree(index.ids, s.tree, t1);
      if !made {
        PostTracks(s, t1, Now(), filePath, i, body, INTERNAL_SERVER_ERROR, disk.prunes);
        return INTERNAL_SERVER_ERROR, reply;
      }
      var created := manager.CreateNewFile(PathOf(i), body, disk.opens);
      if !created {
        PostTracks(s, t1, Now(), filePath, i, body, INTERNAL_SERVER_ERROR, disk.prunes);
        return INTERNAL_SERVER_ERROR, reply;
      }
      PostAnswers(s, t1, i, body);
      reply := IdReply(id);
      index.ids := Insert(index.ids, i);
      PostTracks(s, t1, Now(), filePath, i, body, OK, disk.prunes);
      status := OK;
    }

    method HandlePut(body: string, disk: Disk) returns (status: Status, reply: string)
      requires Valid()
      modifies index, manager
      ensures Valid()
      ensures Answers(old(Stored()), Stored(), PUT, ParseTarget(filePath), body, status, reply)
      ensures disk.opens ==> status != INTERNAL_SERVER_ERROR
      ensures Tracks(old(Now()), Now(), filePath, PUT, status, disk.prunes)
    {
      reply := "";
      ghost var s := Now();
      NothingTracks(s, filePath, PUT, THROWN, disk.prunes);
      var target := ParseTarget(filePath);
      if target.TooBig? { return THROWN, reply; }
      if target.Collection? { return BAD_REQUEST, reply; }
      var i := target.item;
      IndexedIffStored(index.ids, manager.tree, i);
      if !Indexed(index.ids, i) { return NOT_FOUND, reply; }
      OverwriteAgrees(index.ids, manager.tree, i, body);
      var written := manager.WriteToFile(PathOf(i), body, disk.opens);
      if !written { return INTERNAL_SERVER_ERROR, reply; }
      PutTracks(s, Now(), filePath, PathOf(i), body, disk.prunes);
      reply := IdReply(i.id);
      status := OK;
    }

    method HandleDelete(disk: Disk) returns (status: Status, reply: string)
      requires Valid()
      modifies index, manager
      ensures Valid()
      ensures Answers(old(Stored()), Stored(), DELETE, ParseTarget(filePath), "", status, reply)
      ensures disk.removes ==> status != INTERNAL_SERVER_ERROR
      ensures Tracks(old(Now()), Now(), filePath, DELETE, status, disk.prunes)
    {
      reply := "";
      ghost var s := Now();
      NothingTracks(s, filePath, DELETE, THROWN, disk.prunes);
      var target := ParseTarget(filePath);
      if target.TooBig? { return THROWN, reply; }
      if target.Collection? { return BAD_REQUEST, reply; }
      var i := target.item;
      IndexedIffStored(index.ids, manager.tree, i);
      if !Indexed(index.ids, i) { return NOT_FOUND, reply; }
      DeleteFileMeans(s.tree, PathOf(i), disk.removes, disk.prunes);
      DeleteAgrees(index.ids, s.tree, i, disk.prunes);
      var deleted := manager.RemoveFile(PathOf(i), disk.removes, disk.prunes);
      if !deleted { return INTERNAL_SERVER_ERROR, reply; }
      reply := IdReply(i.id);
      index.ids := Erase(index.ids, i);
      DeleteTracks(s, Now(), filePath, disk.prunes);
      status := OK;
    }

    method HandleGet(disk: Disk) returns (status: Status, reply: string)
      requires Valid()
      ensures Answers(Stored(), Stored(), GET, ParseTarget(filePath), "", status, reply)
      ensures var target := ParseTarget(filePath);
              && (target.Member? && target.item in Stored() ==>
                    (status == INTERNAL_SERVER_ERROR <==>
                      !(disk.opens && disk.chunks > |Stored()[target.item]| / CHUNK)))
              && (target.Collection? ==>
                    (status == INTERNAL_SERVER_ERROR <==>
                      target.entity in index.ids && !IsDir(manager.tree, target.entity)))
    {
      reply := "";
      var target := ParseTarget(filePath);
      if target.TooBig? { return THROWN, reply; }
      if target.Member? {
        var i := target.item;
        IndexedIffStored(index.ids, manager.tree, i);
        ContentsAt(manager.tree, i);
        if !Indexed(index.ids, i) { return NOT_FOUND, reply; }
        var read, content := manager.ReadFile(PathOf(i), disk.opens, disk.chunks);
        if !read { return INTERNAL_SERVER_ERROR, content; }
        return OK, content;
      }
      var entity := target.entity;
      if entity !in index.ids {
        NothingListed(index.ids, manager.tree, entity);
        return OK, "[]\n\n";
      }
      var listed, fileNames := manager.ListFiles(entity);
      if !listed { return INTERNAL_SERVER_ERROR, reply; }
      AllListed(index.ids, manager.tree, entity, fileNames);
      reply := WriteList(fileNames);
      status := OK;
    }

    /** The JSON list: every name with a comma and a space, the last two characters taken off again. */
    method WriteList(fileNames: seq<string>) returns (body: string)
      ensures body == ListReply(fileNames)
    {
      body := "[";
      for i := 0 to |fileNames|
        invariant body + Listed(fileNames[i..]) == "[" + Listed(fileNames)
        invariant |body| > 1 <==> i > 0
      {
        assert fileNames[i..][1..] == fileNames[i + 1..];
        body := body + (fileNames[i] + ", ");
      }
      assert body == "[" + Listed(fileNames);
      if |body| > 1 {
        ListedJoined(fileNames);
        assert body == ("[" + CommaJoined(fileNames)) + ", ";
        body := body[..|body| - 2];
      }
      body := body + "]\n\n";
    }

    /** The choice by verb, once the root is there. */
    method HandleMethod(call: Call) returns (status: Status, reply: string)
      requires Valid() && filePath == call.filePath && IsDir(manager.tree, filePath[..1])
      modifies index, manager
      ensures Valid()
      ensures Answers(old(Stored()), Stored(), call.method', ParseTarget(filePath), call.body, status, reply)
      ensures Obstructed(old(Now()), filePath, call.method') ==> status == INTERNAL_SERVER_ERROR
      ensures Willing(old(Now()), call) && status == INTERNAL_SERVER_ERROR ==>
                Obstructed(old(Now()), filePath, call.method')
      ensures Tracks(old(Now()), Now(), filePath, call.method', status, call.disk.prunes)
    {
      reply := "";
      ghost var s := Now();
      match call.method'
      case POST =>
        status, reply := HandlePost(call.body, call.disk);
        PostObstructedIff(s, call, status);
      case GET =>
        assert |filePath| == 1 ==> filePath[..1] == filePath;
        status, reply := HandleGet(call.disk);
        NothingTracks(s, filePath, GET, status, call.disk.prunes);
      case PUT => status, reply := HandlePut(call.body, call.disk);
      case DELETE => status, reply := HandleDelete(call.disk);
      case OTHER =>
        status := if ParseTarget(filePath).TooBig? then THROWN else BAD_REQUEST;
        NothingTracks(s, filePath, OTHER, status, call.disk.prunes);
    }

    /** The climb to the first component of the path. */
    method InitRoot(disk: Disk) returns (status: Status)
      requires Valid()
      modifies manager
      ensures Valid() && Stored() == old(Stored())
      ensures status == OK || status == INTERNAL_SERVER_ERROR || status == THROWN
      ensures status == THROWN <==> ParseTarget(filePath).TooBig?
      ensures status == OK ==> IsDir(manager.tree, filePath[..1])
      ensures disk.rootDirs > 1 ==> status != INTERNAL_SERVER_ERROR
      ensures Grown(old(manager.tree), manager.tree, filePath[..1])
    {
      var target := ParseTarget(filePath);
      if target.TooBig? { return THROWN; }
      ghost var t := manager.tree;
      var root := filePath;
      while |root| > 1
        invariant root != [] && root <= filePath
        decreases |root|
      {
        root := Parent(root);
      }
      CreateDirMeans(t, root, disk.rootDirs);
      NoFileAtTheTop(index.ids, t, root);
      var made := manager.CreateDirectory(root, disk.rootDirs);
      SameFilesAgree(index.ids, t, manager.tree);
      assert root == filePath[..1];
      status := if made then OK else INTERNAL_SERVER_ERROR;
    }
  }

  lemma FilesAreDeep(ids: Ids, t: Tree, p: Path)
    requires Agree(ids, t) && IsFile(t, p)
    ensures |p| >= 2
  {
    assert Indexed(ids, ItemAt(p)) && ItemAt(p).entity != [];
  }

  /** The files of a store lie at least two levels deep, so that nothing is in the way of a root. */
  lemma NoFileAtTheTop(ids: Ids, t: Tree, root: Path)
    requires Agree(ids, t) && |root| <= 1
    ensures forall j :: 0 <= j <= |root| ==> !IsFile(t, root[..j])
  {
    forall j | 0 <= j <= |root|
      ensures !IsFile(t, root[..j])
    {
      if IsFile(t, root[..j]) {
        FilesAreDeep(ids, t, root[..j]);
      }
    }
  }

  // --- whole runs ---------------------------------------------------------------------------

  /** One request as a step of the store: an answer of the reference, or a root directory that could not be
      made. A request is answered 500 if it is obstructed, and if the disk is willing only then. */
  ghost predicate Transition(s: Store, s': Store, call: Call, answer: Answer)
    requires call.filePath != []
  {
    var m, m', target := Contents(s.tree), Contents(s'.tree), ParseTarget(call.filePath);
    && (Answers(m, m', call.method', target, call.body, answer.status, answer.reply)
        || (call.disk.rootDirs <= 1 && answer.status == INTERNAL_SERVER_ERROR && m' == m && !target.TooBig?))
    && (Obstructed(s, call.filePath, call.method') ==> answer.status == INTERNAL_SERVER_ERROR)
    && (Willing(s, call) && answer.status == INTERNAL_SERVER_ERROR ==> Obstructed(s, call.filePath, call.method'))
    && Tracks(s, s', call.filePath, call.method', answer.status, call.disk.prunes)
  }

  lemma TracksThroughRoot(s: Store, s1: Store, s2: Store, filePath: Path, method': Method, status: Status, prunes: bool)
    requires filePath != [] && Grown(s.tree, s1.tree, filePath[..1]) && s1.ids == s.ids
    requires Agree(s.ids, s.tree)
    requires Tracks(s1, s2, filePath, method', status, prunes)
    requires status == OK && method' == DELETE && ParseTarget(filePath).Member? ==>
               ParseTarget(filePath).item.entity != []
    ensures Tracks(s, s2, filePath, method', status, prunes)
  {
    var target := ParseTarget(filePath);
    GainsThroughRoot(s.tree, s1.tree, s2.tree, filePath, method');
    forall p | IsDir(s.tree, p)
      ensures IsDir(s1.tree, p)
      ensures Prunes(s1.tree, p, method', target, status, prunes)
         <==> Prunes(s.tree, p, method', target, status, prunes)
    {
      if method' == DELETE && status == OK && target.Member? {
        SiblingsThroughRoot(s.tree, s1.tree, filePath[..1], PathOf(target.item));
      }
    }
  }

  lemma GainsThroughRoot(t: Tree, t1: Tree, t2: Tree, filePath: Path, method': Method)
    requires filePath != [] && Grown(t, t1, filePath[..1]) && Gains(t1, t2, filePath, method')
    ensures Gains(t, t2, filePath, method')
  {
    assert filePath[..1] <= filePath;
  }

  lemma SiblingsThroughRoot(t: Tree, t1: Tree, root: Path, path: Path)
    requires Grown(t, t1, root) && |root| <= 1 && |path| >= 2 && WellFormed(t)
    ensures HasSibling(t1, path) <==> HasSibling(t, path)
  {
    assert forall p :: p in t1 && p !in t ==> |p| <= 1;
    if HasSibling(t1, path) {
      var p :| p in t1 && p != [] && p != path && Parent(p) == Parent(path);
      assert |p| == |Parent(p)| + 1 == |path|;
      assert p in t;
    }
  }

  lemma ObstructedThroughRoot(s: Store, s1: Store, filePath: Path, method': Method)
    requires filePath != [] && Grown(s.tree, s1.tree, filePath[..1]) && s1.ids == s.ids
    requires Agree(s.ids, s.tree) && Agree(s1.ids, s1.tree) && IsDir(s1.tree, filePath[..1])
    ensures Obstructed(s1, filePath, method') <==> Obstructed(s, filePath, method')
    ensures forall id: nat :: Blocked(s1.tree, Item(filePath, id)) <==> Blocked(s.tree, Item(filePath, id))
    ensures filePath in s.ids && !IsDir(s1.tree, filePath)
       <==> |filePath| > 1 && filePath in s.ids && !IsDir(s.tree, filePath)
  {
    assert |filePath| == 1 ==> filePath[..1] == filePath;
    forall id: nat
      ensures Blocked(s1.tree, Item(filePath, id)) <==> Blocked(s.tree, Item(filePath, id))
    {
      assert |PathOf(Item(filePath, id))| >= 2;
    }
  }

  /** What the handler did after the root was there is a step from before it was. */
  lemma RequestStep(s: Store, s1: Store, s2: Store, call: Call, status: Status, reply: string)
    requires call.filePath != [] && Agree(s.ids, s.tree) && Agree(s1.ids, s1.tree)
    requires Grown(s.tree, s1.tree, call.filePath[..1]) && s1.ids == s.ids && IsDir(s1.tree, call.filePath[..1])
    requires Answers(Contents(s1.tree), Contents(s2.tree), call.method', ParseTarget(call.filePath), call.body,
                     status, reply)
    requires Obstructed(s1, call.filePath, call.method') ==> status == INTERNAL_SERVER_ERROR
    requires Willing(s1, call) && status == INTERNAL_SERVER_ERROR ==> Obstructed(s1, call.filePath, call.method')
    requires Tracks(s1, s2, call.filePath, call.method', status, call.disk.prunes)
    ensures Transition(s, s2, call, Answer(status, reply))
  {
    SameFilesSameContents(s.tree, s1.tree);
    ObstructedThroughRoot(s, s1, call.filePath, call.method');
    if call.method' == DELETE && status == OK && ParseTarget(call.filePath).Member? {
      IndexedIffStored(s.ids, s.tree, ParseTarget(call.filePath).item);
    }
    TracksThroughRoot(s, s1, s2, call.filePath, call.method', status, call.disk.prunes);
  }

  /** A request that ends with the root. */
  lemma RootStep(s: Store, s1: Store, call: Call, status: Status)
    requires call.filePath != [] && Agree(s.ids, s.tree)
    requires Grown(s.tree, s1.tree, call.filePath[..1]) && s1.ids == s.ids
    requires status == THROWN || status == INTERNAL_SERVER_ERROR
    requires status == THROWN <==> ParseTarget(call.filePath).TooBig?
    requires call.disk.rootDirs > 1 ==> status != INTERNAL_SERVER_ERROR
    ensures Transition(s, s1, call, Answer(status, ""))
  {
    SameFilesSameContents(s.tree, s1.tree);
    NothingTracks(s1, call.filePath, call.method', status, call.disk.prunes);
    TracksThroughRoot(s, s1, s1, call.filePath, call.method', status, call.disk.prunes);
  }

  method HandleRequest(call: Call, index: EntityIndex, manager: CrudFileSystemManager) returns (answer: Answer)
    requires call.filePath != [] && Agree(index.ids, manager.tree)
    modifies index, manager
    ensures Agree(index.ids, manager.tree)
    ensures Transition(old(Store(index.ids, manager.tree)), Store(index.ids, manager.tree), call, answer)
  {
    var handler := new CrudHandler(call.filePath, index, manager);
    ghost var s := handler.Now();
    var status := handler.InitRoot(call.disk);
    ghost var s1 := handler.Now();
    var reply := "";
    if status == OK {
      status, reply := handler.HandleMethod(call);
      RequestStep(s, s1, handler.Now(), call, status, reply);
    } else {
      RootStep(s, s1, call, status);
    }
    answer := Answer(status, reply);
  }

  /** A request between two stores whose index and files agree. */
  ghost predicate Step(s: Store, s': Store, call: Call, answer: Answer) {
    call.filePath != [] && Agree(s.ids, s.tree) && Agree(s'.ids, s'.tree) && Transition(s, s', call, answer)
  }

  ghost predicate StepAt(stores: seq<Store>, calls: seq<Call>, answers: seq<Answer>, k: int) {
    0 <= k < |calls| == |answers| < |stores| && Step(stores[k], stores[k + 1], calls[k], answers[k])
  }

  function Nothing(): Store { Store(map[], map[[] := Dir]) }

  /** The answers are those of a run of the store through `stores`, from the empty one. */
  ghost predicate Explains(stores: seq<Store>, calls: seq<Call>, answers: seq<Answer>) {
    && |stores| == |calls| + 1 && |answers| == |calls| && stores[0] == Nothing()
    && forall k :: 0 <= k < |calls| ==> StepAt(stores, calls, answers, k)
  }

  lemma StepAtMore(stores: seq<Store>, calls: seq<Call>, answers: seq<Answer>, k: int, s: Store, call: Call,
                   answer: Answer)
    requires StepAt(stores, calls, answers, k)
    ensures StepAt(stores + [s], calls + [call], answers + [answer], k)
  {
  }

  lemma ExplainsMore(stores: seq<Store>, calls: seq<Call>, answers: seq<Answer>, s: Store, call: Call, answer: Answer)
    requires Explains(stores, calls, answers) && Step(stores[|calls|], s, call, answer)
    ensures Explains(stores + [s], calls + [call], answers + [answer])
  {
    forall k | 0 <= k < |calls| + 1
      ensures StepAt(stores + [s], calls + [call], answers + [answer], k)
    {
      if k < |calls| {
        StepAtMore(stores, calls, answers, k, s, call, answer);
      }
    }
  }

  /** Every sequence of requests to a store that starts empty is answered by a run of one map from
      (entity, id) to bodies, and index and files agree after each of them. */
  method Serve(calls: seq<Call>) returns (answers: seq<Answer>)
    requires forall k :: 0 <= k < |calls| ==> calls[k].filePath != []
    ensures exists stores :: Explains(stores, calls, answers)
  {
    var index := new EntityIndex();
    var manager := new CrudFileSystemManager();
    answers := [];
    ghost var stores := [Store(index.ids, manager.tree)];
    EmptyStore(manager.tree);
    for k := 0 to |calls|
      invariant fresh(index) && fresh(manager) && Agree(index.ids, manager.tree)
      invariant |stores| == k + 1 && stores[k] == Store(index.ids, manager.tree)
      invariant |answers| == k && Explains(stores, calls[..k], answers)
    {
      var answer := HandleRequest(calls[k], index, manager);
      ExplainsMore(stores, calls[..k], answers, Store(index.ids, manager.tree), calls[k], answer);
      assert calls[..k + 1] == calls[..k] + [calls[k]];
      answers := answers + [answer];
      stores := stores + [Store(index.ids, manager.tree)];
    }
    assert calls[..|calls|] == calls;
  }

  /** The reference leaves no choice: two answers to a request that are not failures of the disk have the
      same status and the same effect, and the same reply up to the order of a listing. */
  lemma AnswerUnique(m: map<Item, string>, m1: map<Item, string>, m2: map<Item, string>, method': Method,
                     target: Target, body: string, a1: Answer, a2: Answer)
    requires Answers(m, m1, method', target, body, a1.status, a1.reply)
    requires Answers(m, m2, method', target, body, a2.status, a2.reply)
    requires a1.status != INTERNAL_SERVER_ERROR && a2.status != INTERNAL_SERVER_ERROR
    ensures a1.status == a2.status && m1 == m2
    ensures a1.status == OK && !(method' == GET && target.Collection?) ==> a1.reply == a2.reply
  {
    if a1.status == OK && method' == POST && target.Collection? {
      var e := target.entity;
      var id1: nat :| id1 >= 1 && Item(e, id1) !in m && (forall k: nat :: 1 <= k < id1 ==> Item(e, k) in m)
                      && m1 == m[Item(e, id1) := body] && a1.reply == IdReply(id1);
      var id2: nat :| id2 >= 1 && Item(e, id2) !in m && (forall k: nat :: 1 <= k < id2 ==> Item(e, k) in m)
                      && m2 == m[Item(e, id2) := body] && a2.reply == IdReply(id2);
      assert id1 == id2;
    }
  }

  lemma EmptyStore(t: Tree)
    requires t == map[[] := Dir]
    ensures Agree(map[], t) && Contents(t) == map[]
  {
    forall i: Item
      ensures i !in Contents(t)
    {
      ContentsAt(t, i);
    }
  }

  /** With at least one id left in the index an entity can be listed. */
  lemma ListableWhileUsed(ids: Ids, t: Tree, entity: Path)
    requires Agree(ids, t) && entity in ids && ids[entity] != {}
    ensures IsDir(t, entity)
  {
    var n :| n in ids[entity];
    var i := Item(entity, n);
    assert Indexed(ids, i);
    assert Parent(PathOf(i)) == entity;
  }

  /** Listing is promised to give the empty list for an entity without instances, but `HandleGet` answers
      500 when the entity is in the index and its directory is gone. A delete brings that about exactly
      if it removes the last node of the directory and the disk lets the directory go. */
  lemma ListFailsAfterDeleteIff(ids: Ids, t: Tree, i: Item, prunes: bool)
    requires Agree(ids, t) && Indexed(ids, i)
    ensures var t' := DeleteFile(t, PathOf(i), true, prunes).0;
            i.entity in Erase(ids, i) && !IsDir(t', i.entity) <==> prunes && !HasSibling(t, PathOf(i))
  {
    DeleteFileMeans(t, PathOf(i), true, prunes);
    assert Parent(PathOf(i)) == i.entity;
    assert IsDir(t, i.entity);
  }

  /** The id that POST picks from the index is the least one free in the store. */
  lemma LeastFreeInStore(ids: Ids, t: Tree, i: Item)
    requires Agree(ids, t) && IsLeastFree(UsedIds(ids, i.entity), i.id)
    ensures i !in Contents(t) && forall k: nat :: 1 <= k < i.id ==> Item(i.entity, k) in Contents(t)
  {
    IndexedIffStored(ids, t, i);
    forall k: nat | 1 <= k < i.id
      ensures Item(i.entity, k) in Contents(t)
    {
      assert k in UsedIds(ids, i.entity);
      IndexedIffStored(ids, t, Item(i.entity, k));
    }
  }

  lemma NothingListed(ids: Ids, t: Tree, entity: Path)
    requires Agree(ids, t) && entity !in ids
    ensures NamesOf(Contents(t), entity, []) && ListReply([]) == "[]\n\n"
  {
    forall n: nat
      ensures Item(entity, n) !in Contents(t)
    {
      IndexedIffStored(ids, t, Item(entity, n));
    }
  }

  lemma AllListed(ids: Ids, t: Tree, entity: Path, names: seq<string>)
    requires Agree(ids, t) && forall s :: s in names <==> IsFile(t, entity + [s])
    requires forall i, j :: 0 <= i < j < |names| ==> names[i] != names[j]
    ensures NamesOf(Contents(t), entity, names)
  {
    forall n: nat
      ensures Item(entity, n) in Contents(t) <==> Dec(n) in names
    {
      ContentsAt(t, Item(entity, n));
    }
    forall s | s in names
      ensures exists n: nat :: s == Dec(n)
    {
      var p := entity + [s];
      assert IsFile(t, p) && p == PathOf(ItemAt(p));
      assert p[|p| - 1] == s == Dec(ItemAt(p).id);
    }
  }
}
