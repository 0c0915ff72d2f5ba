/** The CRUD handlers of many threads, interleaved: POST, PUT and DELETE inside the exclusive lock, step by
    step, the GET that looks into the index before it takes the shared lock, and the root directories made
    without any lock. */
module CrudInterleaving {
  import opened Decimal
  import opened FileTree
  import opened CrudHandler

  /** Where a request stands. `Chosen`, `Placed`, `Written`, `Checked` and `Gone` are inside the exclusive
      lock: the id is chosen; its directory is there; its file is written but its id not yet inserted; the
      index holds the id; its file is deleted but its id not yet erased. `GetChecked` holds no lock. */
  datatype Stage =
    | PostWaiting(entity: Path, body: string)
    | PostChosen(item: Item, body: string)
    | PostPlaced(item: Item, body: string)
    | PostWritten(item: Item, body: string)
    | PutWaiting(item: Item, body: string)
    | PutChecked(item: Item, body: string)
    | DeleteWaiting(item: Item)
    | DeleteChecked(item: Item)
    | DeleteGone(item: Item)
    | GetWaiting(item: Item)
    | GetChecked(item: Item)
    | Finished(status: Status, reply: string)

  datatype Lock = Free | HeldBy(thread: nat)

  datatype State = State(ids: Ids, tree: Tree, lock: Lock, threads: map<nat, Stage>)

  /** The steps, with what the disk does in them. */
  datatype Event =
    | Arrive(thread: nat, stage: Stage)
    | MakeRoot(name: string, budget: nat)
    | Choose(thread: nat, id: nat)
    | MakeDirectory(thread: nat, budget: nat)
    | Create(thread: nat, opens: bool)
    | InsertId(thread: nat)
    | Check(thread: nat)
    | Write(thread: nat, opens: bool)
    | RemoveFile(thread: nat, removes: bool, prunes: bool)
    | EraseId(thread: nat)
    | Read(thread: nat, opens: bool, chunks: nat)

  ghost predicate Initial(s: State) {
    s == State(map[], map[[] := Dir], Free, map[])
  }

  predicate Waiting(g: Stage) {
    (g.PostWaiting? && g.entity != []) || g.PutWaiting? || g.DeleteWaiting? || g.GetWaiting?
  }

  predicate Locked(g: Stage) {
    g.PostChosen? || g.PostPlaced? || g.PostWritten? || g.PutChecked? || g.DeleteChecked? || g.DeleteGone?
  }

  predicate Enabled(s: State, e: Event) {
    match e
    case Arrive(n, g) => n !in s.threads && Waiting(g)
    case MakeRoot(_, _) => true
    case Choose(n, id) =>
      && n in s.threads && s.threads[n].PostWaiting? && s.lock == Free
      && IsLeastFree(UsedIds(s.ids, s.threads[n].entity), id)
    case MakeDirectory(n, _) => n in s.threads && s.threads[n].PostChosen?
    case Create(n, _) => n in s.threads && s.threads[n].PostPlaced?
    case InsertId(n) => n in s.threads && s.threads[n].PostWritten?
    case Check(n) =>
      n in s.threads &&
      (s.threads[n].GetWaiting? || ((s.threads[n].PutWaiting? || s.threads[n].DeleteWaiting?) && s.lock == Free))
    case Write(n, _) => n in s.threads && s.threads[n].PutChecked?
    case RemoveFile(n, _, _) => n in s.threads && s.threads[n].DeleteChecked? && s.threads[n].item.entity != []
    case EraseId(n) => n in s.threads && s.threads[n].DeleteGone?
    case Read(n, _, _) => n in s.threads && s.threads[n].GetChecked? && s.lock == Free
  }

  function Goto(s: State, n: nat, g: Stage): State { s.(threads := s.threads[n := g]) }

  /** The end of a critical section. */
  function Leave(s: State, n: nat, status: Status, reply: string): State {
    Goto(s, n, Finished(status, reply)).(lock := Free)
  }

  predicate Readable(t: Tree, i: Item, opens: bool, chunks: nat) {
    IsFile(t, PathOf(i)) && opens && chunks > |t[PathOf(i)].content| / CHUNK
  }

  function Apply(s: State, e: Event): State
    requires Enabled(s, e)
  {
    match e
    case Arrive(n, g) => Goto(s, n, g)
    case MakeRoot(name, budget) => s.(tree := CreateDir(s.tree, [name], budget).0)
    case Choose(n, id) =>
      var g := s.threads[n];
      Goto(s, n, PostChosen(Item(g.entity, id), g.body)).(lock := HeldBy(n))
    case MakeDirectory(n, budget) =>
      var g := s.threads[n];
      var (t, ok) := CreateDir(s.tree, g.item.entity, budget);
      var s1 := s.(tree := t);
      if ok then Goto(s1, n, PostPlaced(g.item, g.body)) else Leave(s1, n, INTERNAL_SERVER_ERROR, "")
    case Create(n, opens) =>
      var g := s.threads[n];
      var (t, ok) := CreateFile(s.tree, PathOf(g.item), g.body, opens);
      var s1 := s.(tree := t);
      if ok then Goto(s1, n, PostWritten(g.item, g.body)) else Leave(s1, n, INTERNAL_SERVER_ERROR, "")
    case InsertId(n) =>
      var i := s.threads[n].item;
      Leave(s.(ids := Insert(s.ids, i)), n, OK, IdReply(i.id))
    case Check(n) =>
      var g := s.threads[n];
      if !Indexed(s.ids, g.item) then Goto(s, n, Finished(NOT_FOUND, ""))
      else if g.GetWaiting? then Goto(s, n, GetChecked(g.item))
      else Goto(s, n, if g.PutWaiting? then PutChecked(g.item, g.body) else DeleteChecked(g.item)).(lock := HeldBy(n))
    case Write(n, opens) =>
      var g := s.threads[n];
      var (t, ok) := WriteFile(s.tree, PathOf(g.item), g.body, opens);
      var s1 := s.(tree := t);
      if ok then Leave(s1, n, OK, IdReply(g.item.id)) else Leave(s1, n, INTERNAL_SERVER_ERROR, "")
    case RemoveFile(n, removes, prunes) =>
      var g := s.threads[n];
      var (t, ok) := DeleteFile(s.tree, PathOf(g.item), removes, prunes);
      var s1 := s.(tree := t);
      if ok then Goto(s1, n, DeleteGone(g.item)) else Leave(s1, n, INTERNAL_SERVER_ERROR, "")
    case EraseId(n) =>
      var i := s.threads[n].item;
      Leave(s.(ids := Erase(s.ids, i)), n, OK, IdReply(i.id))
    case Read(n, opens, chunks) =>
      var i := s.threads[n].item;
      if Readable(s.tree, i, opens, chunks) then Goto(s, n, Finished(OK, s.tree[PathOf(i)].content))
      else Goto(s, n, Finished(INTERNAL_SERVER_ERROR, ""))
  }

  // --- the invariant ------------------------------------------------------------------------

  /** The index as it will be when the critical section that is under way has caught up with the disk. */
  function Pending(s: State): Ids {
    if s.lock.HeldBy? && s.lock.thread in s.threads then
      var g := s.threads[s.lock.thread];
      if g.PostWritten? then Insert(s.ids, g.item) else if g.DeleteGone? then Erase(s.ids, g.item) else s.ids
    else s.ids
  }

  /** What the holder of the lock relies on. */
  ghost predicate HolderKnows(s: State, g: Stage) {
    match g
    case PostChosen(i, _) => i.entity != [] && IsLeastFree(UsedIds(s.ids, i.entity), i.id)
    case PostPlaced(i, _) => i.entity != [] && IsLeastFree(UsedIds(s.ids, i.entity), i.id) && IsDir(s.tree, i.entity)
    case PostWritten(i, body) =>
      IsLeastFree(UsedIds(s.ids, i.entity), i.id) && IsFile(s.tree, PathOf(i)) && s.tree[PathOf(i)].content == body
    case PutChecked(i, _) => Indexed(s.ids, i)
    case DeleteChecked(i) => Indexed(s.ids, i)
    case DeleteGone(i) => Indexed(s.ids, i)
    case _ => false
  }

  ghost predicate Inv(s: State) {
    && Agree(Pending(s), s.tree)
    && (forall n :: n in s.threads && Locked(s.threads[n]) ==> s.lock == HeldBy(n))
    && (forall n :: n in s.threads && s.threads[n].PostWaiting? ==> s.threads[n].entity != [])
    && (s.lock.HeldBy? ==> s.lock.thread in s.threads && HolderKnows(s, s.threads[s.lock.thread]))
  }

  lemma InitialInv(s: State)
    requires Initial(s)
    ensures Inv(s)
  {
    EmptyStore(s.tree);
  }

  lemma RootKeepsInv(s: State, name: string, budget: nat)
    requires Inv(s)
    ensures Inv(Apply(s, MakeRoot(name, budget)))
  {
    CreateDirMeans(s.tree, [name], budget);
    SameFilesAgree(Pending(s), s.tree, CreateDir(s.tree, [name], budget).0);
    if s.lock.HeldBy? && s.threads[s.lock.thread].PostPlaced? {
      var d := s.threads[s.lock.thread].item.entity;
      assert !IsFile(CreateDir(s.tree, [name], budget).0, d);
    }
  }

  lemma PlaceKeepsInv(s: State, n: nat, budget: nat)
    requires Inv(s) && Enabled(s, MakeDirectory(n, budget))
    ensures Inv(Apply(s, MakeDirectory(n, budget)))
  {
    var entity := s.threads[n].item.entity;
    CreateDirMeans(s.tree, entity, budget);
    SameFilesAgree(s.ids, s.tree, CreateDir(s.tree, entity, budget).0);
  }

  lemma CreateKeepsInv(s: State, n: nat, opens: bool)
    requires Inv(s) && Enabled(s, Create(n, opens))
    ensures Inv(Apply(s, Create(n, opens)))
  {
    var g := s.threads[n];
    CreateFileMeans(s.tree, PathOf(g.item), g.body, opens);
    if CreateFile(s.tree, PathOf(g.item), g.body, opens).1 {
      CreateAgrees(s.ids, s.tree, g.item, g.body);
    }
  }

  lemma InsertKeepsInv(s: State, n: nat)
    requires Inv(s) && Enabled(s, InsertId(n))
    ensures Inv(Apply(s, InsertId(n)))
  {
  }

  lemma DeleteKeepsInv(s: State, e: Event)
    requires Inv(s) && Enabled(s, e) && (e.RemoveFile? || e.EraseId?)
    ensures Inv(Apply(s, e))
  {
    if e.RemoveFile? {
      var i := s.threads[e.thread].item;
      DeleteFileMeans(s.tree, PathOf(i), e.removes, e.prunes);
      DeleteAgrees(s.ids, s.tree, i, e.prunes);
    }
  }

  lemma WriteKeepsInv(s: State, e: Event)
    requires Inv(s) && Enabled(s, e) && e.Write?
    ensures Inv(Apply(s, e))
  {
    var g := s.threads[e.thread];
    WriteFileMeans(s.tree, PathOf(g.item), g.body, e.opens);
    OverwriteAgrees(s.ids, s.tree, g.item, g.body);
  }

  lemma EntryKeepsInv(s: State, e: Event)
    requires Inv(s) && Enabled(s, e) && (e.Choose? || (e.Check? && !s.threads[e.thread].GetWaiting?))
    ensures Inv(Apply(s, e))
  {
    assert Pending(Apply(s, e)) == s.ids == Pending(s);
  }

  /** A thread outside the lock moves on without touching index or files. */
  lemma MoveKeepsInv(s: State, n: nat, g: Stage)
    requires Inv(s) && (n in s.threads ==> !Locked(s.threads[n]))
    requires !Locked(g) && (g.PostWaiting? ==> g.entity != [])
    ensures Inv(Goto(s, n, g))
  {
    if s.lock.HeldBy? {
      assert s.lock.thread != n;
    }
    assert Pending(Goto(s, n, g)) == Pending(s);
  }

  lemma OthersKeepInv(s: State, e: Event)
    requires Inv(s) && Enabled(s, e)
    requires e.Arrive? || e.Read? || (e.Check? && s.threads[e.thread].GetWaiting?)
    ensures Inv(Apply(s, e))
  {
    var g := Apply(s, e).threads[e.thread];
    assert Apply(s, e) == Goto(s, e.thread, g);
    MoveKeepsInv(s, e.thread, g);
  }

  lemma StepKeepsInv(s: State, e: Event)
    requires Inv(s) && Enabled(s, e)
    ensures Inv(Apply(s, e))
  {
    match e
    case MakeRoot(name, budget) => RootKeepsInv(s, name, budget);
    case MakeDirectory(n, budget) => PlaceKeepsInv(s, n, budget);
    case Create(n, opens) => CreateKeepsInv(s, n, opens);
    case InsertId(n) => InsertKeepsInv(s, n);
    case Write(_, _) => WriteKeepsInv(s, e);
    case RemoveFile(_, _, _) => DeleteKeepsInv(s, e);
    case EraseId(_) => DeleteKeepsInv(s, e);
    case Arrive(_, _) => OthersKeepInv(s, e);
    case Choose(_, _) => EntryKeepsInv(s, e);
    case Check(n) => if s.threads[n].GetWaiting? { OthersKeepInv(s, e); } else { EntryKeepsInv(s, e); }
    case Read(_, _, _) => OthersKeepInv(s, e);
  }

  // --- runs ---------------------------------------------------------------------------------

  ghost predicate IsRun(ss: seq<State>, es: seq<Event>) {
    && |ss| == |es| + 1 && Initial(ss[0])
    && forall k :: 0 <= k < |es| ==> Enabled(ss[k], es[k]) && ss[k + 1] == Apply(ss[k], es[k])
  }

  lemma {:induction false} RunKeepsInv(ss: seq<State>, es: seq<Event>, k: nat)
    requires IsRun(ss, es) && k <= |es|
    ensures Inv(ss[k])
  {
    if k == 0 {
      InitialInv(ss[0]);
    } else {
      RunKeepsInv(ss, es, k - 1);
      StepKeepsInv(ss[k - 1], es[k - 1]);
    }
  }

  /** In every reachable state index and files agree while the lock is free; while it is held they agree
      on every item but the one the holder is at work on. There is never a file that is no item's. */
  lemma AgreementInEveryRun(ss: seq<State>, es: seq<Event>, k: nat)
    requires IsRun(ss, es) && k <= |es|
    ensures var s := ss[k];
            && (s.lock == Free ==> Agree(s.ids, s.tree))
            && (s.lock.HeldBy? ==>
                  s.lock.thread in s.threads && Locked(s.threads[s.lock.thread]) &&
                  forall j: Item :: j != s.threads[s.lock.thread].item ==>
                    (Indexed(s.ids, j) <==> IsFile(s.tree, PathOf(j))))
            && (forall p :: IsFile(s.tree, p) ==> p != [] && p == PathOf(ItemAt(p)))
  {
    RunKeepsInv(ss, es, k);
    var s := ss[k];
    if s.lock.HeldBy? {
      forall j: Item | j != s.threads[s.lock.thread].item
        ensures Indexed(s.ids, j) <==> IsFile(s.tree, PathOf(j))
      {
        IndexedIffStored(Pending(s), s.tree, j);
        ContentsAt(s.tree, j);
      }
    }
  }

  /** Step `k` is a POST putting the id of `i` into the index; it answers with that id. */
  ghost predicate PostsAt(ss: seq<State>, es: seq<Event>, k: int, i: Item)
    requires IsRun(ss, es)
  {
    && 0 <= k < |es| && es[k].InsertId?
    && ss[k].threads[es[k].thread].PostWritten? && ss[k].threads[es[k].thread].item == i
  }

  ghost predicate ErasesAt(ss: seq<State>, es: seq<Event>, k: int, i: Item)
    requires IsRun(ss, es)
  {
    0 <= k < |es| && es[k].EraseId? && ss[k].threads[es[k].thread] == DeleteGone(i)
  }

  /** Step `k` is a DELETE removing the file of `i`. */
  ghost predicate RemovesAt(ss: seq<State>, es: seq<Event>, k: int, i: Item)
    requires IsRun(ss, es)
  {
    0 <= k < |es| && es[k].RemoveFile? && es[k].removes && ss[k].threads[es[k].thread] == DeleteChecked(i)
  }

  lemma {:induction false} StaysIndexed(ss: seq<State>, es: seq<Event>, a: nat, b: nat, i: Item)
    requires IsRun(ss, es) && a <= b <= |es| && Indexed(ss[a].ids, i) && !Indexed(ss[b].ids, i)
    ensures exists c :: a <= c < b && ErasesAt(ss, es, c, i)
    decreases b - a
  {
    if !ErasesAt(ss, es, a, i) {
      assert Indexed(ss[a + 1].ids, i);
      StaysIndexed(ss, es, a + 1, b, i);
    }
  }

  /** Two POSTs never answer with the same id of an entity unless that item was deleted in between. */
  lemma PostedIdsAreFresh(ss: seq<State>, es: seq<Event>, a: nat, b: nat, i: Item)
    requires IsRun(ss, es) && a < b && PostsAt(ss, es, a, i) && PostsAt(ss, es, b, i)
    ensures exists c :: a < c < b && ErasesAt(ss, es, c, i)
    ensures ss[a + 1].threads[es[a].thread] == ss[b + 1].threads[es[b].thread] == Finished(OK, IdReply(i.id))
  {
    RunKeepsInv(ss, es, b);
    assert Indexed(ss[a + 1].ids, i);
    StaysIndexed(ss, es, a + 1, b, i);
  }

  lemma {:induction false} StaysOnDisk(ss: seq<State>, es: seq<Event>, a: nat, b: nat, i: Item)
    requires IsRun(ss, es) && a <= b <= |es| && IsFile(ss[a].tree, PathOf(i)) && !IsFile(ss[b].tree, PathOf(i))
    ensures exists c :: a <= c < b && RemovesAt(ss, es, c, i)
    decreases b - a
  {
    if !RemovesAt(ss, es, a, i) {
      RunKeepsInv(ss, es, a);
      FileSurvives(ss[a], es[a], i);
      StaysOnDisk(ss, es, a + 1, b, i);
    }
  }

  lemma FileSurvives(s: State, e: Event, i: Item)
    requires Inv(s) && Enabled(s, e) && IsFile(s.tree, PathOf(i))
    requires !(e.RemoveFile? && e.removes && s.threads[e.thread] == DeleteChecked(i))
    ensures IsFile(Apply(s, e).tree, PathOf(i))
  {
    match e
    case MakeRoot(name, budget) => CreateDirMeans(s.tree, [name], budget);
    case MakeDirectory(n, budget) => CreateDirMeans(s.tree, s.threads[n].item.entity, budget);
    case RemoveFile(n, removes, prunes) =>
      var j := s.threads[n].item;
      DeleteFileMeans(s.tree, PathOf(j), removes, prunes);
      if PathOf(j) == PathOf(i) {
        PathOfInjective(j, i);
      }
      assert IsDir(s.tree, Parent(PathOf(j)));
    case _ =>
  }

  /** A DELETE has removed the file of `i` and not yet erased its id. */
  ghost predicate MidDelete(s: State, i: Item) {
    s.lock.HeldBy? && s.lock.thread in s.threads && s.threads[s.lock.thread] == DeleteGone(i)
  }

  /** The answer of a GET that reads now: OK exactly if the file is readable, with its present content. */
  ghost predicate ReadsPresent(s: State, i: Item, opens: bool, chunks: nat, g: Stage) {
    var m := Contents(s.tree);
    if i in m && opens && chunks > |m[i]| / CHUNK then g == Finished(OK, m[i])
    else g == Finished(INTERNAL_SERVER_ERROR, "")
  }

  lemma GetReadsPresent(s: State, n: nat, opens: bool, chunks: nat)
    requires Enabled(s, Read(n, opens, chunks))
    ensures ReadsPresent(s, s.threads[n].item, opens, chunks, Apply(s, Read(n, opens, chunks)).threads[n])
  {
    ContentsAt(s.tree, s.threads[n].item);
  }

  /** Step `k` is the look into the index of a GET for `i`, and the index holds the id. */
  ghost predicate ChecksAt(ss: seq<State>, es: seq<Event>, k: int, n: nat, i: Item)
    requires IsRun(ss, es)
  {
    0 <= k < |es| && es[k] == Check(n) && ss[k].threads[n] == GetWaiting(i) && Indexed(ss[k].ids, i)
  }

  /** A GET by id that passed its check at step `a` and finds no file at `b`: a DELETE removed the file,
      after the check or in a critical section that was under way at it. Together with `GetReadsPresent`:
      if the disk is not to blame, this is the only way to a 500. */
  lemma GetMissesOnlyDeleted(ss: seq<State>, es: seq<Event>, a: nat, b: nat, n: nat, i: Item)
    requires IsRun(ss, es) && a <= b <= |es| && ChecksAt(ss, es, a, n, i)
    requires i !in Contents(ss[b].tree)
    ensures MidDelete(ss[a], i) || exists c :: a <= c < b && RemovesAt(ss, es, c, i)
  {
    ContentsAt(ss[b].tree, i);
    if IsFile(ss[a].tree, PathOf(i)) {
      StaysOnDisk(ss, es, a, b, i);
    } else {
      RunKeepsInv(ss, es, a);
      IndexedButGone(ss[a], i);
    }
  }

  /** A POST has written the file of `i` and not yet inserted its id. */
  ghost predicate MidPost(s: State, i: Item) {
    && s.lock.HeldBy? && s.lock.thread in s.threads
    && s.threads[s.lock.thread].PostWritten? && s.threads[s.lock.thread].item == i
  }

  lemma AbsentUnlessMidPost(s: State, i: Item)
    requires Inv(s) && !Indexed(s.ids, i)
    ensures i in Contents(s.tree) ==> MidPost(s, i)
  {
    IndexedIffStored(Pending(s), s.tree, i);
  }

  /** A look into the index that does not find the id: the item is not stored, unless the look was that of a
      GET and a POST has just written the file and not yet inserted the id. */
  lemma NotFoundMeansAbsent(ss: seq<State>, es: seq<Event>, k: nat, n: nat)
    requires IsRun(ss, es) && k < |es| && es[k] == Check(n)
    requires ss[k + 1].threads[n] == Finished(NOT_FOUND, "")
    ensures var s, g := ss[k], ss[k].threads[n];
            g.item in Contents(s.tree) ==> g.GetWaiting? && MidPost(s, g.item)
  {
    RunKeepsInv(ss, es, k);
    AbsentUnlessMidPost(ss[k], ss[k].threads[n].item);
  }

  lemma IndexedButGone(s: State, i: Item)
    requires Inv(s) && Indexed(s.ids, i) && !IsFile(s.tree, PathOf(i))
    ensures MidDelete(s, i)
  {
    IndexedIffStored(Pending(s), s.tree, i);
    ContentsAt(s.tree, i);
  }

  /** The reference for one step on the stored map: a POST inserts its body at the least free id when it
      creates the file, a PUT overwrites, a DELETE removes, and no other step has any effect. */
  ghost predicate ActsOn(m: map<Item, string>, m': map<Item, string>, e: Event, before: Stage, after: Stage) {
    match e
    case Create(_, _) =>
      if after.PostWritten? then
        && before.PostPlaced? && before.item !in m && m' == m[before.item := before.body]
        && forall j: nat :: 1 <= j < before.item.id ==> Item(before.item.entity, j) in m
      else m' == m
    case Write(_, _) =>
      && before.PutChecked? && after.Finished? && before.item in m
      && m' == if after.status == OK then m[before.item := before.body] else m
    case RemoveFile(_, _, _) =>
      && before.DeleteChecked? && before.item in m
      && m' == if after.DeleteGone? then m - {before.item} else m
    case _ => m' == m
  }

  /** Every step of every run acts on the stored map at once or not at all. */
  lemma StepOnContents(s: State, e: Event)
    requires Inv(s) && Enabled(s, e) && !e.MakeRoot? && !e.Arrive?
    ensures ActsOn(Contents(s.tree), Contents(Apply(s, e).tree), e, s.threads[e.thread], Apply(s, e).threads[e.thread])
  {
    var s', g := Apply(s, e), s.threads[e.thread];
    match e
    case MakeDirectory(n, budget) =>
      CreateDirMeans(s.tree, g.item.entity, budget);
      SameFilesSameContents(s.tree, s'.tree);
    case Create(n, opens) =>
      CreateFileMeans(s.tree, PathOf(g.item), g.body, opens);
      LeastFreeInStore(s.ids, s.tree, g.item);
      if s'.threads[n].PostWritten? {
        CreateAgrees(s.ids, s.tree, g.item, g.body);
      }
    case Write(n, opens) =>
      WriteFileMeans(s.tree, PathOf(g.item), g.body, opens);
      OverwriteAgrees(s.ids, s.tree, g.item, g.body);
      IndexedIffStored(s.ids, s.tree, g.item);
    case RemoveFile(n, removes, prunes) =>
      DeleteFileMeans(s.tree, PathOf(g.item), removes, prunes);
      DeleteAgrees(s.ids, s.tree, g.item, prunes);
      IndexedIffStored(s.ids, s.tree, g.item);
    case _ =>
  }

  lemma RootOnContents(s: State, name: string, budget: nat)
    requires Inv(s)
    ensures Contents(Apply(s, MakeRoot(name, budget)).tree) == Contents(s.tree)
  {
    CreateDirMeans(s.tree, [name], budget);
    SameFilesSameContents(s.tree, Apply(s, MakeRoot(name, budget)).tree);
  }
}
