/** What can happen in the interleaved store: nothing that a client or the disk may do is ruled out, and the lock
    never keeps everyone waiting. */
module CrudProgress {
  import opened FileTree
  import opened CrudHandler
  import opened CrudInterleaving

  /** Any request may arrive, and any root directory be made. */
  ghost predicate ArrivalsFree(s: State, n: nat) {
    && (forall entity, body :: entity != [] ==> Enabled(s, Arrive(n, PostWaiting(entity, body))))
    && (forall i, body :: Enabled(s, Arrive(n, PutWaiting(i, body))))
    && (forall i :: Enabled(s, Arrive(n, DeleteWaiting(i))) && Enabled(s, Arrive(n, GetWaiting(i))))
    && forall name, budget :: Enabled(s, MakeRoot(name, budget))
  }

  /** A request outside the lock may go on as soon as the lock is free; a GET may look into the index at once. */
  ghost predicate WaitersFree(s: State, n: nat, g: Stage) {
    match g
    case PostWaiting(entity, _) =>
      s.lock == Free ==> exists id :: IsLeastFree(UsedIds(s.ids, entity), id) && Enabled(s, Choose(n, id))
    case PutWaiting(_, _) => s.lock == Free ==> Enabled(s, Check(n))
    case DeleteWaiting(_) => s.lock == Free ==> Enabled(s, Check(n))
    case GetWaiting(_) => Enabled(s, Check(n))
    case GetChecked(_) => s.lock == Free ==> forall opens, chunks :: Enabled(s, Read(n, opens, chunks))
    case _ => true
  }

  /** A request inside the lock may always go on, whatever the disk does. */
  ghost predicate HolderFree(s: State, n: nat, g: Stage) {
    match g
    case PostChosen(_, _) => forall budget :: Enabled(s, MakeDirectory(n, budget))
    case PostPlaced(_, _) => forall opens :: Enabled(s, Create(n, opens))
    case PostWritten(_, _) => Enabled(s, InsertId(n))
    case PutChecked(_, _) => forall opens :: Enabled(s, Write(n, opens))
    case DeleteChecked(_) => forall removes, prunes :: Enabled(s, RemoveFile(n, removes, prunes))
    case DeleteGone(_) => Enabled(s, EraseId(n))
    case _ => true
  }

  lemma WaitersAreFree(s: State, n: nat)
    requires n in s.threads
    ensures WaitersFree(s, n, s.threads[n])
  {
    if s.threads[n].PostWaiting? && s.lock == Free {
      var id := LeastFreeExists(UsedIds(s.ids, s.threads[n].entity));
      assert Enabled(s, Choose(n, id));
    }
  }

  lemma HoldersAreFree(s: State, n: nat)
    requires n in s.threads && (s.threads[n].DeleteChecked? ==> s.threads[n].item.entity != [])
    ensures HolderFree(s, n, s.threads[n])
  {
  }

  lemma DeleteHasEntity(s: State, n: nat)
    requires Inv(s) && n in s.threads && s.threads[n].DeleteChecked?
    ensures s.threads[n].item.entity != []
  {
    assert s.lock == HeldBy(n);
  }

  /** In every run: any request may arrive, every request that is due may go on, and if the lock is held
      then by a request that may go on. */
  lemma NobodyIsStuck(ss: seq<State>, es: seq<Event>, k: nat, n: nat)
    requires IsRun(ss, es) && k <= |es|
    ensures n !in ss[k].threads ==> ArrivalsFree(ss[k], n)
    ensures n in ss[k].threads ==> WaitersFree(ss[k], n, ss[k].threads[n]) && HolderFree(ss[k], n, ss[k].threads[n])
    ensures ss[k].lock.HeldBy? ==>
              ss[k].lock.thread in ss[k].threads && Locked(ss[k].threads[ss[k].lock.thread])
  {
    RunKeepsInv(ss, es, k);
    if n in ss[k].threads {
      WaitersAreFree(ss[k], n);
      if ss[k].threads[n].DeleteChecked? {
        DeleteHasEntity(ss[k], n);
      }
      HoldersAreFree(ss[k], n);
    }
  }

  /** How many steps a request has before it at most. */
  function Rank(g: Stage): (n: nat) {
    match g
    case PostWaiting(_, _) => 5
    case PostChosen(_, _) => 4
    case PostPlaced(_, _) => 3
    case PostWritten(_, _) => 2
    case PutWaiting(_, _) => 2
    case PutChecked(_, _) => 1
    case DeleteWaiting(_) => 3
    case DeleteChecked(_) => 2
    case DeleteGone(_) => 1
    case GetWaiting(_) => 2
    case GetChecked(_) => 1
    case Finished(_, _) => 0
  }

  /** Each step of a request brings it nearer to its end, and a request that has ended takes no step. */
  lemma StepsEnd(s: State, e: Event)
    requires Enabled(s, e) && !e.MakeRoot? && !e.Arrive?
    ensures e.thread in s.threads && e.thread in Apply(s, e).threads
    ensures Rank(Apply(s, e).threads[e.thread]) < Rank(s.threads[e.thread])
  {
  }

  /** The number of steps of thread `n` among the first `k`, its arrival not counted. */
  function StepsOf(es: seq<Event>, k: nat, n: nat): (c: nat)
    requires k <= |es|
  {
    if k == 0 then 0
    else StepsOf(es, k - 1, n) + (if !es[k - 1].MakeRoot? && !es[k - 1].Arrive? && es[k - 1].thread == n then 1 else 0)
  }

  lemma RankStep(s: State, e: Event, s': State, n: nat)
    requires Enabled(s, e) && s' == Apply(s, e)
    ensures n in s.threads ==> n in s'.threads
    ensures n in s.threads && !e.MakeRoot? && !e.Arrive? && e.thread == n ==> Rank(s'.threads[n]) < Rank(s.threads[n])
    ensures n in s.threads && (e.MakeRoot? || e.thread != n) ==> s'.threads[n] == s.threads[n]
    ensures n !in s.threads && n in s'.threads ==> e.Arrive? && e.thread == n && Rank(s'.threads[n]) <= 5
    ensures n !in s.threads ==> e.MakeRoot? || e.Arrive? || e.thread != n
  {
    if !e.MakeRoot? && !e.Arrive? {
      StepsEnd(s, e);
    }
  }

  /** No request takes more than five steps. */
  lemma {:induction false} AtMostFiveSteps(ss: seq<State>, es: seq<Event>, k: nat, n: nat)
    requires IsRun(ss, es) && k <= |es|
    ensures StepsOf(es, k, n) <= 5
    ensures if n in ss[k].threads then StepsOf(es, k, n) + Rank(ss[k].threads[n]) <= 5 else StepsOf(es, k, n) == 0
    decreases k
  {
    if k > 0 {
      AtMostFiveSteps(ss, es, k - 1, n);
      RankStep(ss[k - 1], es[k - 1], ss[k], n);
    }
  }
}
