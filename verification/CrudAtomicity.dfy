/** Every request of an interleaved run takes effect at one of its own steps, and there its status and reply are
    an answer of the reference for what is stored at that step: what is in the index and on the disk. */
module CrudAtomicity {
  import opened FileTree
  import opened CrudHandler
  import opened CrudInterleaving

  datatype Request = Request(method': Method, target: Target, body: string)

  /** A request that has not taken effect. */
  predicate Early(g: Stage) { !g.DeleteGone? && !g.Finished? }

  function RequestOf(g: Stage): Request
    requires Early(g)
  {
    match g
    case PostWaiting(entity, body) => Request(POST, Collection(entity), body)
    case PostChosen(i, body) => Request(POST, Collection(i.entity), body)
    case PostPlaced(i, body) => Request(POST, Collection(i.entity), body)
    case PostWritten(i, body) => Request(POST, Collection(i.entity), body)
    case PutWaiting(i, body) => Request(PUT, Member(i), body)
    case PutChecked(i, body) => Request(PUT, Member(i), body)
    case DeleteWaiting(i) => Request(DELETE, Member(i), "")
    case DeleteChecked(i) => Request(DELETE, Member(i), "")
    case GetWaiting(i) => Request(GET, Member(i), "")
    case GetChecked(i) => Request(GET, Member(i), "")
  }

  /** What a request that has taken effect answers, or will answer. */
  function AnswerOf(g: Stage): Answer
    requires !Early(g)
  {
    if g.Finished? then Answer(g.status, g.reply) else Answer(OK, IdReply(g.item.id))
  }

  ghost predicate IsAnswerTo(m: map<Item, string>, m': map<Item, string>, q: Request, a: Answer) {
    Answers(m, m', q.method', q.target, q.body, a.status, a.reply)
  }

  /** The part of the files that the index knows. */
  function Known(files: map<Item, string>, ids: Ids): (m: map<Item, string>) {
    map i | i in files && Indexed(ids, i) :: files[i]
  }

  lemma KnownInserted(files: map<Item, string>, ids: Ids, i: Item)
    requires i in files
    ensures Known(files, Insert(ids, i)) == Known(files, ids)[i := files[i]]
  {
    assert forall j: Item :: Indexed(Insert(ids, i), j) <==> Indexed(ids, j) || j == i;
  }

  lemma KnownErased(files: map<Item, string>, ids: Ids, i: Item)
    requires i !in files
    ensures Known(files, Erase(ids, i)) == Known(files, ids)
  {
    assert forall j: Item :: Indexed(Erase(ids, i), j) <==> Indexed(ids, j) && j != i;
  }

  lemma KnownCreated(files: map<Item, string>, ids: Ids, i: Item, body: string)
    requires !Indexed(ids, i)
    ensures Known(files[i := body], ids) == Known(files, ids)
  {
  }

  lemma KnownRemoved(files: map<Item, string>, ids: Ids, i: Item)
    ensures Known(files - {i}, ids) == Known(files, ids) - {i}
  {
  }

  /** What is stored: an item counts while its file is there and its id is in the index. */
  ghost function Visible(s: State): (m: map<Item, string>) { Known(Contents(s.tree), s.ids) }

  /** Outside the last part of a POST or a DELETE that is all files. */
  lemma VisibleIsContents(s: State)
    requires Inv(s) && Pending(s) == s.ids
    ensures Visible(s) == Contents(s.tree)
  {
    forall i | i in Contents(s.tree)
      ensures Indexed(s.ids, i)
    {
      IndexedIffStored(s.ids, s.tree, i);
    }
  }

  /** Step `e` belongs to the request of thread `n`. */
  predicate Own(e: Event, n: nat) { !e.MakeRoot? && !e.Arrive? && e.thread == n }

  // --- one step -------------------------------------------------------------------------------

  /** The disk, or a node in the way, is to blame for a failure in this step. */
  ghost predicate Refuses(s: State, e: Event)
    requires Enabled(s, e)
  {
    match e
    case MakeDirectory(n, budget) => Blocked(s.tree, s.threads[n].item) || budget <= |s.threads[n].item.entity|
    case Create(n, opens) => Blocked(s.tree, s.threads[n].item) || !opens
    case Write(_, opens) => !opens
    case RemoveFile(_, removes, _) => !removes
    case Read(n, opens, chunks) =>
      var i, m := s.threads[n].item, Visible(s);
      i in m && !(opens && chunks > |m[i]| / CHUNK)
    case _ => false
  }

  /** The one answer that fits no moment: a GET reads after the file of the id that it found in the index is
      gone. */
  ghost predicate Misses(s: State, e: Event, i: Item, a: Answer) {
    e.Read? && i !in Visible(s) && a == Answer(INTERNAL_SERVER_ERROR, "")
  }

  /** The step in which a request takes effect. */
  ghost predicate Effect(s: State, e: Event, q: Request, a: Answer)
    requires Enabled(s, e)
  {
    && IsAnswerTo(Visible(s), Visible(Apply(s, e)), q, a)
    && (a.status == INTERNAL_SERVER_ERROR ==> Refuses(s, e))
  }

  ghost predicate Silent(s: State, e: Event)
    requires Enabled(s, e)
  {
    Visible(Apply(s, e)) == Visible(s)
  }

  /** What a step does for the request `q` of its thread: it goes on unnoticed, or takes effect, or misses. */
  ghost predicate Advances(s: State, e: Event, q: Request, h: Stage)
    requires Enabled(s, e)
  {
    if Early(h) then RequestOf(h) == q && Silent(s, e)
    else
      || Effect(s, e, q, AnswerOf(h))
      || (q.method' == GET && q.target.Member? && h.Finished? && Silent(s, e)
          && Misses(s, e, q.target.item, AnswerOf(h)))
  }

  // The answers of the reference, one by one.

  lemma NotFoundAnswers(m: map<Item, string>, q: Request)
    requires q.target.Member? && q.target.item !in m && q.method' != POST && q.method' != OTHER
    ensures IsAnswerTo(m, m, q, Answer(NOT_FOUND, ""))
  {
  }

  lemma FailureAnswers(m: map<Item, string>, q: Request)
    requires !q.target.TooBig? && !Malformed(q.method', q.target) && (q.target.Member? ==> q.target.item in m)
    ensures IsAnswerTo(m, m, q, Answer(INTERNAL_SERVER_ERROR, ""))
  {
  }

  lemma PostAnswersTo(m: map<Item, string>, m': map<Item, string>, i: Item, body: string)
    requires i.id >= 1 && i !in m && (forall k: nat :: 1 <= k < i.id ==> Item(i.entity, k) in m) && m' == m[i := body]
    ensures IsAnswerTo(m, m', Request(POST, Collection(i.entity), body), Answer(OK, IdReply(i.id)))
  {
    assert Posted(m, m', i.entity, body, IdReply(i.id));
  }

  lemma PutAnswersTo(m: map<Item, string>, i: Item, body: string)
    requires i in m
    ensures IsAnswerTo(m, m[i := body], Request(PUT, Member(i), body), Answer(OK, IdReply(i.id)))
  {
  }

  lemma DeleteAnswersTo(m: map<Item, string>, i: Item)
    requires i in m
    ensures IsAnswerTo(m, m - {i}, Request(DELETE, Member(i), ""), Answer(OK, IdReply(i.id)))
  {
  }

  lemma GetAnswersTo(m: map<Item, string>, i: Item)
    requires i in m
    ensures IsAnswerTo(m, m, Request(GET, Member(i), ""), Answer(OK, m[i]))
  {
  }

  // The steps.

  lemma PlaceAdvances(s: State, n: nat, budget: nat)
    requires Inv(s) && Enabled(s, MakeDirectory(n, budget))
    ensures var e := MakeDirectory(n, budget); Advances(s, e, RequestOf(s.threads[n]), Apply(s, e).threads[n])
  {
    var g := s.threads[n];
    StepOnContents(s, MakeDirectory(n, budget));
    EntityDirMeans(s.tree, g.item, budget);
    FailureAnswers(Visible(s), RequestOf(g));
  }

  lemma CreateAdvances(s: State, n: nat, opens: bool)
    requires Inv(s) && Enabled(s, Create(n, opens))
    ensures var e := Create(n, opens); Advances(s, e, RequestOf(s.threads[n]), Apply(s, e).threads[n])
  {
    var g, e := s.threads[n], Create(n, opens);
    StepOnContents(s, e);
    CreateFileMeans(s.tree, PathOf(g.item), g.body, opens);
    if Apply(s, e).threads[n].PostWritten? {
      KnownCreated(Contents(s.tree), s.ids, g.item, g.body);
    } else {
      FailureAnswers(Visible(s), RequestOf(g));
      assert Parent(PathOf(g.item)) == g.item.entity;
    }
  }

  /** What a POST that has written its file relies on when it inserts the id. */
  lemma ReadyToInsert(s: State, n: nat)
    requires Inv(s) && Enabled(s, InsertId(n))
    ensures var i, m := s.threads[n].item, Visible(s);
            && i.id >= 1 && i !in m && (forall k: nat :: 1 <= k < i.id ==> Item(i.entity, k) in m)
            && i in Contents(s.tree) && Contents(s.tree)[i] == s.threads[n].body
  {
    var i := s.threads[n].item;
    ContentsAt(s.tree, i);
    forall k: nat | 1 <= k < i.id
      ensures Item(i.entity, k) in Visible(s)
    {
      assert k in UsedIds(s.ids, i.entity);
      IndexedIffStored(Pending(s), s.tree, Item(i.entity, k));
    }
  }

  lemma InsertAdvances(s: State, n: nat)
    requires Inv(s) && Enabled(s, InsertId(n))
    ensures Advances(s, InsertId(n), RequestOf(s.threads[n]), Apply(s, InsertId(n)).threads[n])
  {
    var g, s' := s.threads[n], Apply(s, InsertId(n));
    ReadyToInsert(s, n);
    KnownInserted(Contents(s.tree), s.ids, g.item);
    PostAnswersTo(Visible(s), Visible(s'), g.item, g.body);
  }

  lemma WriteAdvances(s: State, n: nat, opens: bool)
    requires Inv(s) && Enabled(s, Write(n, opens))
    ensures var e := Write(n, opens); Advances(s, e, RequestOf(s.threads[n]), Apply(s, e).threads[n])
  {
    var g, e := s.threads[n], Write(n, opens);
    StepOnContents(s, e);
    StepKeepsInv(s, e);
    VisibleIsContents(s);
    VisibleIsContents(Apply(s, e));
    WriteFileMeans(s.tree, PathOf(g.item), g.body, opens);
    ContentsAt(s.tree, g.item);
    PutAnswersTo(Visible(s), g.item, g.body);
    FailureAnswers(Visible(s), RequestOf(g));
  }

  lemma RemoveAdvances(s: State, n: nat, removes: bool, prunes: bool)
    requires Inv(s) && Enabled(s, RemoveFile(n, removes, prunes))
    ensures var e := RemoveFile(n, removes, prunes); Advances(s, e, RequestOf(s.threads[n]), Apply(s, e).threads[n])
  {
    var g, e := s.threads[n], RemoveFile(n, removes, prunes);
    StepOnContents(s, e);
    VisibleIsContents(s);
    KnownRemoved(Contents(s.tree), s.ids, g.item);
    DeleteFileMeans(s.tree, PathOf(g.item), removes, prunes);
    DeleteAnswersTo(Visible(s), g.item);
    FailureAnswers(Visible(s), RequestOf(g));
  }

  lemma CheckAdvances(s: State, n: nat)
    requires Enabled(s, Check(n))
    ensures Advances(s, Check(n), RequestOf(s.threads[n]), Apply(s, Check(n)).threads[n])
  {
    if !Indexed(s.ids, s.threads[n].item) {
      NotFoundAnswers(Visible(s), RequestOf(s.threads[n]));
    }
  }

  lemma ReadAdvances(s: State, n: nat, opens: bool, chunks: nat)
    requires Inv(s) && Enabled(s, Read(n, opens, chunks))
    ensures var e := Read(n, opens, chunks); Advances(s, e, RequestOf(s.threads[n]), Apply(s, e).threads[n])
  {
    VisibleIsContents(s);
    GetReadsPresent(s, n, opens, chunks);
    if s.threads[n].item in Visible(s) {
      ReadFinds(s, n, opens, chunks);
    }
  }

  lemma ReadFinds(s: State, n: nat, opens: bool, chunks: nat)
    requires Enabled(s, Read(n, opens, chunks)) && s.threads[n].item in Visible(s) && Visible(s) == Contents(s.tree)
    requires ReadsPresent(s, s.threads[n].item, opens, chunks, Apply(s, Read(n, opens, chunks)).threads[n])
    ensures var e := Read(n, opens, chunks); Effect(s, e, RequestOf(s.threads[n]), AnswerOf(Apply(s, e).threads[n]))
  {
    GetAnswersTo(Visible(s), s.threads[n].item);
    FailureAnswers(Visible(s), RequestOf(s.threads[n]));
  }

  lemma OwnStepAdvances(s: State, e: Event)
    requires Inv(s) && Enabled(s, e) && !e.MakeRoot? && !e.Arrive? && Early(s.threads[e.thread])
    ensures Advances(s, e, RequestOf(s.threads[e.thread]), Apply(s, e).threads[e.thread])
  {
    match e
    case Choose(_, _) =>
    case MakeDirectory(n, budget) => PlaceAdvances(s, n, budget);
    case Create(n, opens) => CreateAdvances(s, n, opens);
    case InsertId(n) => InsertAdvances(s, n);
    case Check(n) => CheckAdvances(s, n);
    case Write(n, opens) => WriteAdvances(s, n, opens);
    case RemoveFile(n, removes, prunes) => RemoveAdvances(s, n, removes, prunes);
    case Read(n, opens, chunks) => ReadAdvances(s, n, opens, chunks);
    case _ =>
  }

  /** The last step of a DELETE, which erases the id of the file that is gone, changes nothing stored. */
  lemma LastStep(s: State, e: Event)
    requires Inv(s) && Enabled(s, e) && !e.MakeRoot? && !e.Arrive? && !Early(s.threads[e.thread])
    ensures Silent(s, e) && e.EraseId?
    ensures var h := Apply(s, e).threads[e.thread]; h.Finished? && AnswerOf(h) == AnswerOf(s.threads[e.thread])
  {
    FileIsGone(s, e.thread);
    KnownErased(Contents(s.tree), s.ids, s.threads[e.thread].item);
  }

  lemma FileIsGone(s: State, n: nat)
    requires Inv(s) && n in s.threads && s.threads[n].DeleteGone?
    ensures s.threads[n].item !in Contents(s.tree)
  {
    IndexedIffStored(Pending(s), s.tree, s.threads[n].item);
  }

  lemma OthersStay(s: State, e: Event, n: nat)
    requires Enabled(s, e) && n in s.threads && !Own(e, n)
    ensures n in Apply(s, e).threads && Apply(s, e).threads[n] == s.threads[n]
  {
  }

  /** The step at which a request takes effect with `answer`, or at which a GET by id misses. */
  ghost predicate Decides(s: State, e: Event, n: nat, q: Request, answer: Answer)
    requires Enabled(s, e)
  {
    && Own(e, n)
    && (Effect(s, e, q, answer)
        || (q.method' == GET && q.target.Member? && Misses(s, e, q.target.item, answer) && Silent(s, e)))
  }

  // --- many steps -----------------------------------------------------------------------------

  /** What a step means to a thread: whether it is a step of that thread, whether it leaves the stored map
      alone, and whether it decides the answer that the thread has after it. */
  datatype Mark = Mark(own: bool, silent: bool, decides: bool)

  ghost function MarkOf(s: State, e: Event, n: nat, q: Request, h: Stage): Mark
    requires Enabled(s, e)
  {
    Mark(Own(e, n), Silent(s, e), !Early(h) && Decides(s, e, n, q, AnswerOf(h)))
  }

  /** The marked step moves its thread from stage `g` to stage `h`. */
  predicate Moves(x: Mark, g: Stage, h: Stage) {
    if !x.own then h == g
    else if Early(g) then if Early(h) then x.silent else x.decides
    else !Early(h) && AnswerOf(h) == AnswerOf(g) && x.silent
  }

  lemma StepMoves(s: State, e: Event, n: nat, q: Request)
    requires Inv(s) && Enabled(s, e) && n in s.threads && (Early(s.threads[n]) ==> RequestOf(s.threads[n]) == q)
    ensures n in Apply(s, e).threads
    ensures var h := Apply(s, e).threads[n];
            Moves(MarkOf(s, e, n, q, h), s.threads[n], h) && (Early(h) ==> RequestOf(h) == q)
  {
    if !Own(e, n) {
      OthersStay(s, e, n);
    } else if Early(s.threads[n]) {
      OwnStepAdvances(s, e);
      AdvanceMoves(s, e, q, s.threads[n], Apply(s, e).threads[n]);
    } else {
      LastMoves(s, e, q);
    }
  }

  lemma LastMoves(s: State, e: Event, q: Request)
    requires Inv(s) && Enabled(s, e) && !e.MakeRoot? && !e.Arrive? && !Early(s.threads[e.thread])
    ensures var h := Apply(s, e).threads[e.thread];
            Moves(MarkOf(s, e, e.thread, q, h), s.threads[e.thread], h) && !Early(h)
  {
    LastStep(s, e);
  }

  lemma AdvanceMoves(s: State, e: Event, q: Request, g: Stage, h: Stage)
    requires Enabled(s, e) && !e.MakeRoot? && !e.Arrive? && Early(g) && Advances(s, e, q, h)
    ensures Moves(MarkOf(s, e, e.thread, q, h), g, h) && (Early(h) ==> RequestOf(h) == q)
  {
  }

  /** A thread that is early after the steps before `k` has done nothing yet; any other has got its answer at
      one step, and all its other steps are silent. */
  lemma {:induction false} DecidedOnce(mark: nat -> Mark, stage: nat -> Stage, a: nat, k: nat) returns (j: nat)
    requires a < k && Early(stage(a + 1))
    requires forall i :: a < i < k ==> Moves(mark(i), stage(i), stage(i + 1))
    ensures Early(stage(k)) ==> forall i :: a < i < k && mark(i).own ==> mark(i).silent
    ensures !Early(stage(k)) ==>
              && a < j < k && mark(j).own && mark(j).decides
              && !Early(stage(j + 1)) && AnswerOf(stage(j + 1)) == AnswerOf(stage(k))
              && forall i :: a < i < k && i != j && mark(i).own ==> mark(i).silent
    decreases k
  {
    j := k - 1;
    if k > a + 1 {
      var j' := DecidedOnce(mark, stage, a, k - 1);
      assert Moves(mark(k - 1), stage(k - 1), stage(k - 1 + 1));
      if !Early(stage(k - 1)) {
        j := j';
      }
    }
  }

  // --- whole runs -----------------------------------------------------------------------------

  ghost predicate StepAt(ss: seq<State>, es: seq<Event>, i: int) {
    0 <= i < |es| < |ss| && Enabled(ss[i], es[i]) && ss[i + 1] == Apply(ss[i], es[i])
  }

  lemma Arrival(s: State, e: Event, s': State, n: nat, g: Stage)
    requires Enabled(s, e) && s' == Apply(s, e) && e == Arrive(n, g)
    ensures Early(g) && n in s'.threads && s'.threads[n] == g
  {
  }

  lemma StepKeepsRequest(s: State, e: Event, s': State, n: nat, g: Stage)
    requires Inv(s) && Enabled(s, e) && s' == Apply(s, e) && n in s.threads && Early(g)
    requires Early(s.threads[n]) ==> RequestOf(s.threads[n]) == RequestOf(g)
    ensures n in s'.threads && (Early(s'.threads[n]) ==> RequestOf(s'.threads[n]) == RequestOf(g))
  {
    StepMoves(s, e, n, RequestOf(g));
  }

  /** While it is early, a thread works on the request that it came with. */
  lemma {:induction false} SameRequest(ss: seq<State>, es: seq<Event>, a: nat, k: nat, n: nat, g: Stage)
    requires IsRun(ss, es) && a < k <= |es| && es[a] == Arrive(n, g)
    ensures Early(g) && n in ss[k].threads && (Early(ss[k].threads[n]) ==> RequestOf(ss[k].threads[n]) == RequestOf(g))
    ensures k == a + 1 ==> ss[k].threads[n] == g
    decreases k
  {
    if k == a + 1 {
      Arrival(ss[a], es[a], ss[k], n, g);
    } else {
      SameRequest(ss, es, a, k - 1, n, g);
      RunKeepsInv(ss, es, k - 1);
      StepKeepsRequest(ss[k - 1], es[k - 1], ss[k], n, g);
    }
  }

  function StageAt(s: State, n: nat): Stage { if n in s.threads then s.threads[n] else Finished(THROWN, "") }

  ghost function MarkAt(ss: seq<State>, es: seq<Event>, i: nat, n: nat, q: Request): Mark {
    if StepAt(ss, es, i) then MarkOf(ss[i], es[i], n, q, StageAt(ss[i + 1], n)) else Mark(false, true, false)
  }

  lemma MarkMoves(ss: seq<State>, es: seq<Event>, a: nat, i: nat, n: nat, g: Stage)
    requires IsRun(ss, es) && a < i < |es| && es[a] == Arrive(n, g)
    ensures Early(g) && Moves(MarkAt(ss, es, i, n, RequestOf(g)), StageAt(ss[i], n), StageAt(ss[i + 1], n))
  {
    SameRequest(ss, es, a, i, n, g);
    RunKeepsInv(ss, es, i);
    assert StepAt(ss, es, i);
    StepMoves(ss[i], es[i], n, RequestOf(g));
  }

  lemma MarkSays(ss: seq<State>, es: seq<Event>, i: nat, n: nat, q: Request)
    requires i < |es| < |ss| && Enabled(ss[i], es[i]) && ss[i + 1] == Apply(ss[i], es[i])
    ensures var x := MarkAt(ss, es, i, n, q);
            && x.own == Own(es[i], n) && x.silent == Silent(ss[i], es[i])
            && (x.decides ==>
                  !Early(StageAt(ss[i + 1], n)) && Decides(ss[i], es[i], n, q, AnswerOf(StageAt(ss[i + 1], n))))
  {
    assert StepAt(ss, es, i);
  }

  /** In every run a finished request has taken effect at exactly one of its own steps: there its status and
      its reply answer it for the map as it is, a failure has its cause there, and its other steps change
      nothing. The only exception is a GET by id that missed, and that has changed nothing at all. */
  lemma EveryRequestIsAtomic(ss: seq<State>, es: seq<Event>, a: nat, k: nat, n: nat, g: Stage) returns (j: nat)
    requires IsRun(ss, es) && a < k <= |es| && es[a] == Arrive(n, g)
    requires n in ss[k].threads && ss[k].threads[n].Finished?
    ensures Early(g) && a < j < k && Decides(ss[j], es[j], n, RequestOf(g), AnswerOf(ss[k].threads[n]))
    ensures forall i :: a < i < k && i != j && Own(es[i], n) ==> Silent(ss[i], es[i])
  {
    SameRequest(ss, es, a, a + 1, n, g);
    var q := RequestOf(g);
    var mark := (i: nat) => MarkAt(ss, es, i, n, q);
    var stage := (i: nat) => if i < |ss| then StageAt(ss[i], n) else g;
    forall i | a < i < k
      ensures Moves(mark(i), stage(i), stage(i + 1))
    {
      MarkMoves(ss, es, a, i, n, g);
    }
    j := DecidedOnce(mark, stage, a, k);
    MarkSays(ss, es, j, n, q);
    forall i | a < i < k && i != j && Own(es[i], n)
      ensures Silent(ss[i], es[i])
    {
      MarkSays(ss, es, i, n, q);
      assert mark(i).own;
    }
  }

  /** The steps that belong to no request change nothing. */
  lemma OnlyRequestsChange(ss: seq<State>, es: seq<Event>, i: nat)
    requires IsRun(ss, es) && i < |es| && (es[i].MakeRoot? || es[i].Arrive?)
    ensures Silent(ss[i], es[i])
  {
    RunKeepsInv(ss, es, i);
    if es[i].MakeRoot? {
      RootOnContents(ss[i], es[i].name, es[i].budget);
    }
  }

  // --- the miss -------------------------------------------------------------------------------

  /** A GET by id answers 500 without the disk being to blame exactly if the item is not stored when it reads. */
  lemma MissesIff(s: State, n: nat, opens: bool, chunks: nat)
    requires Inv(s) && Enabled(s, Read(n, opens, chunks))
    ensures var e := Read(n, opens, chunks);
            var answer := AnswerOf(Apply(s, e).threads[n]);
            answer.status == INTERNAL_SERVER_ERROR && !Refuses(s, e) <==> s.threads[n].item !in Visible(s)
  {
    VisibleIsContents(s);
    GetReadsPresent(s, n, opens, chunks);
  }

  lemma RunMore(ss: seq<State>, es: seq<Event>, e: Event)
    requires IsRun(ss, es) && Enabled(ss[|es|], e)
    ensures IsRun(ss + [Apply(ss[|es|], e)], es + [e])
  {
  }

  /** A run that ends in `s`. */
  ghost predicate EndsIn(ss: seq<State>, es: seq<Event>, s: State) { IsRun(ss, es) && ss[|es|] == s }

  lemma Next(ss: seq<State>, es: seq<Event>, s: State, e: Event) returns (ss': seq<State>, es': seq<Event>, s': State)
    requires EndsIn(ss, es, s) && Enabled(s, e)
    ensures es' == es + [e] && s' == Apply(s, e) && EndsIn(ss', es', s') && ss' == ss + [s']
  {
    RunMore(ss, es, e);
    ss', es', s' := ss + [Apply(s, e)], es + [e], Apply(s, e);
  }

  /** The store with one item. */
  ghost predicate Holds(s: State, i: Item, body: string) {
    && s.lock == Free && s.threads.Keys == {0} && Indexed(s.ids, i)
    && IsFile(s.tree, PathOf(i)) && s.tree[PathOf(i)].content == body
  }

  lemma PlaceFirst(s: State, entity: Path, body: string)
    requires entity != [] && s.tree == map[[] := Dir] && s.threads == map[0 := PostChosen(Item(entity, 1), body)]
    ensures var (t, ok) := CreateDir(s.tree, entity, |entity| + 1);
            ok && IsDir(t, entity) && PathOf(Item(entity, 1)) !in t
  {
    EmptyStore(s.tree);
    assert forall j :: 0 <= j <= |entity| ==> !IsFile(s.tree, entity[..j]);
    CreateDirMeans(s.tree, entity, |entity| + 1);
    assert !(PathOf(Item(entity, 1)) <= entity);
  }

  lemma FirstItem(entity: Path, body: string) returns (ss: seq<State>, es: seq<Event>, s: State)
    requires entity != []
    ensures EndsIn(ss, es, s) && |es| == 5 && Holds(s, Item(entity, 1), body)
  {
    var i := Item(entity, 1);
    s := State(map[], map[[] := Dir], Free, map[]);
    ss, es := [s], [];
    ss, es, s := Next(ss, es, s, Arrive(0, PostWaiting(entity, body)));
    ss, es, s := Next(ss, es, s, Choose(0, 1));
    PlaceFirst(s, entity, body);
    ss, es, s := Next(ss, es, s, MakeDirectory(0, |entity| + 1));
    assert Parent(PathOf(i)) == entity;
    ss, es, s := Next(ss, es, s, Create(0, true));
    ss, es, s := Next(ss, es, s, InsertId(0));
  }

  lemma GetChecks(ss: seq<State>, es: seq<Event>, s: State, i: Item, body: string)
    returns (ss': seq<State>, es': seq<Event>, s': State)
    requires EndsIn(ss, es, s) && |es| == 5 && Holds(s, i, body)
    ensures EndsIn(ss', es', s') && |es'| == 7 && ss <= ss' && es'[5] == Arrive(1, GetWaiting(i))
    ensures s' == s.(threads := s.threads[1 := GetChecked(i)])
  {
    var s6;
    ss', es', s6 := Next(ss, es, s, Arrive(1, GetWaiting(i)));
    ss', es', s' := Next(ss', es', s6, Check(1));
    assert s'.threads == s.threads[1 := GetChecked(i)];
  }

  lemma DeleteOvertakes(ss: seq<State>, es: seq<Event>, s: State, i: Item)
    returns (ss': seq<State>, es': seq<Event>, s': State)
    requires EndsIn(ss, es, s) && s.lock == Free && Indexed(s.ids, i) && IsFile(s.tree, PathOf(i)) && i.entity != []
    requires 1 in s.threads && s.threads[1] == GetChecked(i) && 2 !in s.threads
    ensures EndsIn(ss', es', s') && |es'| == |es| + 4 && ss <= ss' && es <= es'
    ensures s'.lock == Free && 1 in s'.threads && s'.threads[1] == GetChecked(i)
    ensures 2 in s'.threads && s'.threads[2] == Finished(OK, IdReply(i.id)) && !IsFile(s'.tree, PathOf(i))
  {
    var s1, s2, s3;
    ss', es', s1 := Next(ss, es, s, Arrive(2, DeleteWaiting(i)));
    ss', es', s2 := Next(ss', es', s1, Check(2));
    FileRemoved(s2.tree, PathOf(i));
    ss', es', s3 := Next(ss', es', s2, RemoveFile(2, true, true));
    ss', es', s' := Next(ss', es', s3, EraseId(2));
  }

  lemma FileRemoved(t: Tree, p: Path)
    requires |p| >= 2 && IsFile(t, p)
    ensures DeleteFile(t, p, true, true).1 && !IsFile(DeleteFile(t, p, true, true).0, p)
  {
  }

  lemma ReadMisses(ss: seq<State>, es: seq<Event>, s: State, i: Item, chunks: nat)
    returns (ss': seq<State>, es': seq<Event>, s': State)
    requires EndsIn(ss, es, s) && s.lock == Free && !IsFile(s.tree, PathOf(i))
    requires 1 in s.threads && s.threads[1] == GetChecked(i)
    ensures EndsIn(ss', es', s') && es' == es + [Read(1, true, chunks)] && ss' == ss + [s']
    ensures i !in Visible(s) && s'.threads == s.threads[1 := Finished(INTERNAL_SERVER_ERROR, "")]
  {
    ContentsAt(s.tree, i);
    ss', es', s' := Next(ss, es, s, Read(1, true, chunks));
  }

  lemma HoldsVisible(s: State, i: Item, body: string)
    requires Holds(s, i, body)
    ensures i in Visible(s)
  {
    ContentsAt(s.tree, i);
  }

  lemma PostThenGetChecks(entity: Path, body: string) returns (ss: seq<State>, es: seq<Event>, s: State)
    requires entity != []
    ensures EndsIn(ss, es, s) && |es| == 7 && es[5] == Arrive(1, GetWaiting(Item(entity, 1)))
    ensures Item(entity, 1) in Visible(ss[5])
    ensures s.lock == Free && Indexed(s.ids, Item(entity, 1)) && IsFile(s.tree, PathOf(Item(entity, 1)))
    ensures 1 in s.threads && s.threads[1] == GetChecked(Item(entity, 1)) && 2 !in s.threads
  {
    var i := Item(entity, 1);
    var ss5, es5, s5 := FirstItem(entity, body);
    HoldsVisible(s5, i, body);
    ss, es, s := GetChecks(ss5, es5, s5, i, body);
    assert ss[5] == ss5[5];
  }

  lemma DeleteThenGetReads(ss: seq<State>, es: seq<Event>, s: State, i: Item, chunks: nat)
    returns (ss': seq<State>, es': seq<Event>)
    requires EndsIn(ss, es, s) && s.lock == Free && Indexed(s.ids, i) && IsFile(s.tree, PathOf(i)) && i.entity != []
    requires 1 in s.threads && s.threads[1] == GetChecked(i) && 2 !in s.threads
    ensures IsRun(ss', es') && |es'| == |es| + 5 && ss <= ss' && es <= es'
    ensures es'[|es| + 4] == Read(1, true, chunks) && i !in Visible(ss'[|es| + 4])
    ensures var last := ss'[|es'|].threads;
            && 1 in last && last[1] == Finished(INTERNAL_SERVER_ERROR, "")
            && 2 in last && last[2] == Finished(OK, IdReply(i.id))
  {
    var ss1, es1, s1 := DeleteOvertakes(ss, es, s, i);
    var s2;
    ss', es', s2 := ReadMisses(ss1, es1, s1, i, chunks);
  }

  /** A run without any failure of the disk: POST; a GET finds the id in the index; DELETE; the GET reads, and
      answers 500, although the item was there when the GET began and 404 is the answer now. */
  lemma GetOvertakenByDelete(entity: Path, body: string) returns (ss: seq<State>, es: seq<Event>)
    requires entity != []
    ensures IsRun(ss, es) && |es| == 12
    ensures es[5] == Arrive(1, GetWaiting(Item(entity, 1))) && Item(entity, 1) in Visible(ss[5])
    ensures es[11] == Read(1, true, |body| / CHUNK + 1) && Item(entity, 1) !in Visible(ss[11])
    ensures 1 in ss[12].threads && ss[12].threads[1] == Finished(INTERNAL_SERVER_ERROR, "")
    ensures 2 in ss[12].threads && ss[12].threads[2] == Finished(OK, IdReply(1))
  {
    var ss7, es7, s7 := PostThenGetChecks(entity, body);
    ss, es := DeleteThenGetReads(ss7, es7, s7, Item(entity, 1), |body| / CHUNK + 1);
    assert ss[5] == ss7[5] && es[5] == es7[5];
  }
}
