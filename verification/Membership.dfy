/** Who is in a channel, what a session has received and what it can still do, told from the events of a run
    alone: the channels, snapshots and inboxes of the many-session system are what those events make them. */
module Membership {
  import opened WriteQueue
  import opened GlobalWebsocketState
  import opened Fanout
  import opened Delivery

  // --- who is in a channel --------------------------------------------------------------------

  /** `r` has been added to channel `c` before step `k`. */
  ghost predicate HasJoined(ys: seq<System>, es: seq<Event>, k: int, r: nat, c: string)
    requires IsRun(ys, es) && k <= |es|
  {
    exists j :: 0 <= j < k && JoinsAt(ys, es, j, r, c)
  }

  ghost predicate JoinsAt(ys: seq<System>, es: seq<Event>, j: int, r: nat, c: string)
    requires IsRun(ys, es)
  {
    0 <= j < |es| && es[j] == AddMember(r) && r in ys[j].sessions && ys[j].sessions[r].channel == c
  }

  /** `Remove` has erased `r` before step `k`. */
  predicate HasLeft(es: seq<Event>, k: int, r: nat)
    requires k <= |es|
  {
    exists j :: 0 <= j < k && es[j] == Leave(r)
  }

  predicate InChannel(y: System, c: string, r: nat) { c in y.channels && r in y.channels[c] }

  lemma ChannelFixed(y: System, e: Event, r: nat)
    requires Enabled(y, e) && r in y.sessions
    ensures r in Apply(y, e).sessions && Apply(y, e).sessions[r].channel == y.sessions[r].channel
  {
  }

  lemma LeftStep(y: System, e: Event, r: nat)
    requires Enabled(y, e) && r in y.sessions
    ensures r in Apply(y, e).sessions
    ensures Apply(y, e).sessions[r].left <==> y.sessions[r].left || e == Leave(r)
  {
  }

  /** A session has been removed exactly if `Remove` was called for it. */
  lemma {:induction false} LeftIff(ys: seq<System>, es: seq<Event>, k: nat, r: nat)
    requires IsRun(ys, es) && k <= |es|
    ensures HasLeft(es, k, r) <==> r in ys[k].sessions && ys[k].sessions[r].left
    decreases k
  {
    if k > 0 {
      var i := k - 1;
      LeftIff(ys, es, i, r);
      LeftNext(ys[i], es[i], ys[k], r);
      assert HasLeft(es, k, r) <==> HasLeft(es, i, r) || es[i] == Leave(r);
    }
  }

  lemma LeftNext(y: System, e: Event, y': System, r: nat)
    requires Enabled(y, e) && y' == Apply(y, e)
    ensures r in y'.sessions && y'.sessions[r].left <==> (r in y.sessions && y.sessions[r].left) || e == Leave(r)
  {
    if r in y.sessions {
      LeftStep(y, e, r);
    }
  }

  lemma MemberNext(y: System, e: Event, y': System, c: string, r: nat)
    requires MembersOk(y) && Enabled(y, e) && y' == Apply(y, e)
    ensures InChannel(y', c, r) <==>
              (InChannel(y, c, r) && e != Leave(r)) || (e == AddMember(r) && y.sessions[r].channel == c)
  {
  }

  lemma AddedIsAlive(y: System, r: nat)
    requires LivesOk(y) && Enabled(y, AddMember(r))
    ensures !y.sessions[r].left
  {
    assert LifeOk(y.channels, r, y.sessions[r]);
  }

  /** In every run the members of a channel are those that have been added to it and not been removed. */
  lemma {:induction false} MemberIff(ys: seq<System>, es: seq<Event>, k: nat, c: string, r: nat)
    requires IsRun(ys, es) && k <= |es|
    ensures InChannel(ys[k], c, r) <==> HasJoined(ys, es, k, r, c) && !HasLeft(es, k, r)
    decreases k
  {
    if k > 0 {
      var i := k - 1;
      MemberIff(ys, es, i, c, r);
      MemberAfter(ys, es, i, c, r);
    }
  }

  lemma MemberAfter(ys: seq<System>, es: seq<Event>, i: nat, c: string, r: nat)
    requires IsRun(ys, es) && i < |es|
    requires InChannel(ys[i], c, r) <==> HasJoined(ys, es, i, r, c) && !HasLeft(es, i, r)
    ensures InChannel(ys[i + 1], c, r) <==> HasJoined(ys, es, i + 1, r, c) && !HasLeft(es, i + 1, r)
  {
    RunKeepsAll(ys, es, i);
    MemberNext(ys[i], es[i], ys[i + 1], c, r);
    JoinedNext(ys, es, i, c, r);
    assert HasLeft(es, i + 1, r) <==> HasLeft(es, i, r) || es[i] == Leave(r);
    if es[i] == AddMember(r) {
      LeftIff(ys, es, i, r);
      AddedIsAlive(ys[i], r);
    }
  }

  lemma JoinedNext(ys: seq<System>, es: seq<Event>, i: nat, c: string, r: nat)
    requires IsRun(ys, es) && i < |es|
    ensures HasJoined(ys, es, i + 1, r, c) <==> HasJoined(ys, es, i, r, c) || JoinsAt(ys, es, i, r, c)
  {
  }

  // --- whom a snapshot finds ------------------------------------------------------------------

  /** The snapshot that a broadcast of `x` takes finds exactly the sessions that have been added to the
      channel of `x` before and not removed. */
  lemma SnapshotFindsIff(ys: seq<System>, es: seq<Event>, k: nat, x: nat, r: nat)
    requires IsRun(ys, es) && k < |es| && es[k] == Snapshot(x)
    ensures x in ys[k].sessions && ys[k].sessions[x].inbox != []
    ensures var round, c := Round(x, |ys[k].sessions[x].inbox| - 1), ys[k].sessions[x].channel;
            round in ys[k + 1].snapshots
            && (r in ys[k + 1].snapshots[round] <==> HasJoined(ys, es, k, r, c) && !HasLeft(es, k, r))
  {
    MemberIff(ys, es, k, ys[k].sessions[x].channel, r);
    SnapshotRecords(ys[k], ys[k + 1], x, r);
  }

  lemma SnapshotRecords(y: System, y': System, x: nat, r: nat)
    requires Enabled(y, Snapshot(x)) && y' == Apply(y, Snapshot(x))
    ensures var round := Round(x, |y.sessions[x].inbox| - 1);
            round in y'.snapshots && (r in y'.snapshots[round] <==> InChannel(y, y.sessions[x].channel, r))
  {
  }

  lemma OthersTakeNone(y: System, e: Event)
    requires Enabled(y, e) && !e.Snapshot?
    ensures Apply(y, e).snapshots == y.snapshots
  {
  }

  lemma TakesNext(y: System, x: nat, k: Round)
    requires SnapOk(y, k) && Enabled(y, Snapshot(x))
    ensures var y' := Apply(y, Snapshot(x)); k in y'.snapshots && y'.snapshots[k] == y.snapshots[k]
  {
  }

  /** A snapshot is never taken again. */
  lemma SnapshotKept(y: System, e: Event, k: Round)
    requires SnapsOk(y) && Enabled(y, e) && k in y.snapshots
    ensures k in Apply(y, e).snapshots && Apply(y, e).snapshots[k] == y.snapshots[k]
  {
    if e.Snapshot? {
      SnapOf(y, k);
      TakesNext(y, e.x, k);
    } else {
      OthersTakeNone(y, e);
    }
  }

  lemma {:induction false} SnapshotsLast(ys: seq<System>, es: seq<Event>, k: nat, m: nat, round: Round)
    requires IsRun(ys, es) && k <= m <= |es| && round in ys[k].snapshots
    ensures round in ys[m].snapshots && ys[m].snapshots[round] == ys[k].snapshots[round]
    decreases m - k
  {
    if k < m {
      RunKeepsAll(ys, es, k);
      SnapshotKept(ys[k], es[k], round);
      SnapshotsLast(ys, es, k + 1, m, round);
    }
  }

  // --- what a session has received ------------------------------------------------------------

  /** The payloads of the messages that `x` has received before step `k`. */
  function Payloads(es: seq<Event>, k: nat, x: nat): (ps: seq<string>)
    requires k <= |es|
  {
    if k == 0 then []
    else Payloads(es, k - 1, x) + (if es[k - 1].Receive? && es[k - 1].x == x then [es[k - 1].payload] else [])
  }

  lemma ReceiveNext(y: System, x: nat, p: string)
    requires Enabled(y, Receive(x, p)) && y.sessions[x].buffer == ""
    ensures var s := Apply(y, Receive(x, p)).sessions;
            x in s && s[x].inbox == y.sessions[x].inbox + [p] && s[x].buffer == p
  {
    assert "" + p == p;
  }

  lemma OthersReceiveNothing(y: System, e: Event, x: nat)
    requires Enabled(y, e) && !(e.Receive? && e.x == x)
    ensures InboxOf(Apply(y, e), x) == InboxOf(y, x)
  {
  }

  lemma InboxNext(y: System, e: Event, y': System, x: nat)
    requires LivesOk(y) && Enabled(y, e) && y' == Apply(y, e)
    ensures InboxOf(y', x) == InboxOf(y, x) + (if e.Receive? && e.x == x then [e.payload] else [])
  {
    if e.Receive? && e.x == x {
      assert LifeOk(y.channels, x, y.sessions[x]);
      ReceiveNext(y, x, e.payload);
    } else {
      OthersReceiveNothing(y, e, x);
    }
  }

  /** The inbox is what has been received, in order. */
  lemma {:induction false} InboxIs(ys: seq<System>, es: seq<Event>, k: nat, x: nat)
    requires IsRun(ys, es) && k <= |es|
    ensures InboxOf(ys[k], x) == Payloads(es, k, x)
    decreases k
  {
    if k > 0 {
      InboxIs(ys, es, k - 1, x);
      RunKeepsAll(ys, es, k - 1);
      InboxNext(ys[k - 1], es[k - 1], ys[k], x);
    }
  }

  /** The channel of a session is the one it has connected to. */
  lemma {:induction false} ChannelIs(ys: seq<System>, es: seq<Event>, k: nat, x: nat)
    requires IsRun(ys, es) && k <= |es| && x in ys[k].sessions
    ensures exists j :: 0 <= j < k && es[j] == Connect(x, ys[k].sessions[x].channel)
    decreases k
  {
    if k > 0 {
      var i := k - 1;
      assert ys[k] == Apply(ys[i], es[i]);
      if x in ys[i].sessions {
        ChannelIs(ys, es, i, x);
        ChannelFixed(ys[i], es[i], x);
      } else {
        NewbornIs(ys[i], es[i], x);
      }
    }
  }

  lemma NewbornIs(y: System, e: Event, x: nat)
    requires Enabled(y, e) && x !in y.sessions && x in Apply(y, e).sessions
    ensures e == Connect(x, Apply(y, e).sessions[x].channel)
  {
  }

  lemma {:induction false} PayloadsGrow(es: seq<Event>, k: nat, m: nat, x: nat)
    requires k <= m <= |es|
    ensures Payloads(es, k, x) <= Payloads(es, m, x)
    decreases m
  {
    if k < m {
      PayloadsGrow(es, k, m - 1, x);
    }
  }

  // --- the mail, from the events --------------------------------------------------------------

  /** At step `k` session `x` takes the snapshot for its message `n` with payload `p`, and `r` is a member. */
  ghost predicate Reaches(ys: seq<System>, es: seq<Event>, k: int, x: nat, n: nat, p: string, r: nat)
    requires IsRun(ys, es)
  {
    && 0 <= k < |es| && es[k] == Snapshot(x) && x in ys[k].sessions
    && |Payloads(es, k, x)| == n + 1 && Payloads(es, k, x)[n] == p
    && HasJoined(ys, es, k, r, ys[k].sessions[x].channel) && !HasLeft(es, k, r)
  }

  lemma TakenNext(y: System, e: Event, y': System, round: Round)
    requires Enabled(y, e) && y' == Apply(y, e) && round in y'.snapshots && round !in y.snapshots
    ensures e == Snapshot(round.sender) && |y.sessions[round.sender].inbox| == round.number + 1
  {
    if !e.Snapshot? {
      OthersTakeNone(y, e);
    }
  }

  /** Every snapshot on record was taken at some step. */
  lemma {:induction false} SnapshotTakenAt(ys: seq<System>, es: seq<Event>, m: nat, round: Round) returns (k: nat)
    requires IsRun(ys, es) && m <= |es| && round in ys[m].snapshots
    ensures k < m && es[k] == Snapshot(round.sender) && round.sender in ys[k].sessions
    ensures |ys[k].sessions[round.sender].inbox| == round.number + 1
    ensures round in ys[k + 1].snapshots && ys[m].snapshots[round] == ys[k + 1].snapshots[round]
    decreases m
  {
    var i := m - 1;
    if round in ys[i].snapshots {
      k := SnapshotTakenAt(ys, es, i, round);
      RunKeepsAll(ys, es, i);
      SnapshotKept(ys[i], es[i], round);
    } else {
      TakenNext(ys[i], es[i], ys[m], round);
      k := i;
    }
  }

  /** Whatever has been handed to `r` was broadcast when `r` was a member. */
  lemma MailReached(ys: seq<System>, es: seq<Event>, m: nat, r: nat, message: Message) returns (k: nat)
    requires IsRun(ys, es) && m <= |es| && r in ys[m].sessions && message in Delivered(ys[m].sessions[r])
    ensures k < m && Reaches(ys, es, k, message.sender, message.number, message.payload, r)
  {
    var x, n := message.sender, message.number;
    DeliveredIff(ys, es, m, r, message);
    k := SnapshotTakenAt(ys, es, m, Round(x, n));
    SnapshotFindsIff(ys, es, k, x, r);
    InboxIs(ys, es, k, x);
    InboxIs(ys, es, m, x);
    PayloadsGrow(es, k, m, x);
  }

  /** Whoever was a member when a message was broadcast, and is alive when its loop is over, has it. */
  lemma ReachedHasMail(ys: seq<System>, es: seq<Event>, k: nat, m: nat, x: nat, n: nat, p: string, r: nat)
    requires IsRun(ys, es) && k < m <= |es| && Reaches(ys, es, k, x, n, p, r)
    requires r in ys[m].sessions && Alive(ys[m].sessions[r]) && x in ys[m].sessions && !Pending(ys[m], x, n, r)
    ensures Message(x, n, p) in Delivered(ys[m].sessions[r])
  {
    InboxIs(ys, es, k, x);
    InboxIs(ys, es, m, x);
    PayloadsGrow(es, k, m, x);
    SnapshotFindsIff(ys, es, k, x, r);
    SnapshotsLast(ys, es, k + 1, m, Round(x, n));
    SnapshotSettled(ys, es, m, x, n, r);
    DeliveredIff(ys, es, m, r, Message(x, n, p));
  }

  /** In every run, from the events alone: a session that is alive has been handed a message of `x`, unless the
      loop for it is still on its way to it, if and only if it had been added to the channel of `x`, and not
      removed, when `x` took the snapshot for that message. */
  lemma LiveMailIff(ys: seq<System>, es: seq<Event>, m: nat, x: nat, n: nat, p: string, r: nat)
    requires IsRun(ys, es) && m <= |es| && r in ys[m].sessions && Alive(ys[m].sessions[r])
    requires x in ys[m].sessions && !Pending(ys[m], x, n, r)
    ensures Message(x, n, p) in Delivered(ys[m].sessions[r]) <==>
              exists k :: 0 <= k < m && Reaches(ys, es, k, x, n, p, r)
  {
    if Message(x, n, p) in Delivered(ys[m].sessions[r]) {
      var k := MailReached(ys, es, m, r, Message(x, n, p));
    }
    if k :| 0 <= k < m && Reaches(ys, es, k, x, n, p, r) {
      ReachedHasMail(ys, es, k, m, x, n, p, r);
    }
  }

  // --- what can happen ------------------------------------------------------------------------

  /** The events by which a session's own handlers go on. */
  predicate Own(e: Event, x: nat) { e.x == x && !e.Connect? && !e.Leave? && !e.Free? }

  /** Some handler of `x` can go on, or some promotion loop holds it. */
  ghost predicate InUse(y: System, x: nat) {
    || (exists e :: Own(e, x) && Enabled(y, e))
    || (exists z :: z in y.sessions && HeldOf(y.sessions[z]) == Holding(x))
  }

  lemma HandlerGoesOn(y: System, x: nat) returns (e: Event)
    requires Inv(y) && x in y.sessions && Alive(y.sessions[x]) && y.sessions[x].pins == {}
    ensures Own(e, x) && Enabled(y, e)
  {
    var s := y.sessions[x];
    assert LifeOk(y.channels, x, s);
    match s.phase
    case Accepting => e := Refuse(x);
    case Linking => e := AddMember(x);
    case Reading => e := StopReading(x);
    case Received => e := Snapshot(x);
    case Sending(_, _, _) => e := LoopEvent(y, x);
    case _ => e := if s.posted != [] then OnBroadcast(x) else OnWrite(x, true);
  }

  lemma LoopEvent(y: System, x: nat) returns (e: Event)
    requires Inv(y) && x in y.sessions && y.sessions[x].phase.Sending?
    ensures Own(e, x) && Enabled(y, e)
  {
    LoopGoesOn(y, x);
    if y.sessions[x].phase.held.Holding? {
      e := Post(x);
    } else if Enabled(y, Finish(x)) {
      e := Finish(x);
    } else {
      var r :| r in y.sessions[x].phase.todo && Enabled(y, Promote(x, r));
      e := Promote(x, r);
    }
  }

  lemma UsedIsAlive(y: System, x: nat, e: Event)
    requires Own(e, x) && Enabled(y, e)
    ensures x in y.sessions && Alive(y.sessions[x])
  {
  }

  /** A session is alive exactly while one of its handlers is pending or running, or a loop holds it. */
  lemma AliveIff(ys: seq<System>, es: seq<Event>, k: nat, x: nat)
    requires IsRun(ys, es) && k <= |es| && x in ys[k].sessions
    ensures Alive(ys[k].sessions[x]) <==> InUse(ys[k], x)
  {
    var y := ys[k];
    RunKeepsAll(ys, es, k);
    if Alive(y.sessions[x]) {
      if y.sessions[x].pins == {} {
        var e := HandlerGoesOn(y, x);
      } else {
        var z :| z in y.sessions[x].pins;
        assert z in y.sessions && HeldOf(y.sessions[z]) == Holding(x);
      }
    }
    if e :| Own(e, x) && Enabled(y, e) {
      UsedIsAlive(y, x, e);
    }
  }

  /** What the connect and read handlers may do: the handshake succeeds or fails, a read brings any payload
      or an error. */
  ghost predicate ReadersFree(y: System, x: nat)
    requires x in y.sessions
  {
    var p := y.sessions[x].phase;
    && (p.Accepting? ==> Enabled(y, AddChannel(x)) && Enabled(y, Refuse(x)))
    && (p.Linking? ==> Enabled(y, AddMember(x)))
    && (p.Reading? ==> Enabled(y, StopReading(x)) && forall payload :: Enabled(y, Receive(x, payload)))
    && (p.Received? ==> Enabled(y, Snapshot(x)))
  }

  /** A loop may try its members in any order. */
  ghost predicate LoopFree(y: System, x: nat)
    requires x in y.sessions
  {
    var p := y.sessions[x].phase;
    p.Sending? ==>
      if p.held.Holding? then Enabled(y, Post(x))
      else (p.todo == {} ==> Enabled(y, Finish(x))) && forall r :: r in p.todo ==> Enabled(y, Promote(x, r))
  }

  /** What is posted may run, a write that is due may succeed or fail, and what is dead may be destroyed. */
  ghost predicate RestFree(y: System, x: nat)
    requires x in y.sessions
  {
    var s := y.sessions[x];
    && (s.posted != [] ==> Enabled(y, OnBroadcast(x)))
    && (s.writer.queue != [] && !s.writer.failed ==> forall ok :: Enabled(y, OnWrite(x, ok)))
    && (!Alive(s) && !s.left && s.channel in y.channels ==> Enabled(y, Leave(x)))
    && (s.left && !s.freed ==> Enabled(y, Free(x)))
  }

  lemma ReadersAreFree(y: System, x: nat)
    requires SessionOk(y, x)
    ensures ReadersFree(y, x)
  {
  }

  lemma LoopIsFree(y: System, x: nat)
    requires Inv(y) && x in y.sessions
    ensures LoopFree(y, x)
  {
    if HeldOf(y.sessions[x]).Holding? {
      HeldLives(y, x);
    } else {
      forall r | y.sessions[x].phase.Sending? && r in y.sessions[x].phase.todo
        ensures Enabled(y, Promote(x, r))
      {
        TargetExists(y, x, r);
      }
    }
  }

  lemma RestIsFree(y: System, x: nat)
    requires SessionOk(y, x)
    ensures RestFree(y, x)
  {
  }

  /** No handler that is due is held up, and nothing that a client or the network may do is ruled out. */
  lemma AnythingMayHappen(ys: seq<System>, es: seq<Event>, k: nat, x: nat)
    requires IsRun(ys, es) && k <= |es|
    ensures x !in ys[k].sessions ==> forall c :: Enabled(ys[k], Connect(x, c))
    ensures x in ys[k].sessions ==> ReadersFree(ys[k], x) && LoopFree(ys[k], x) && RestFree(ys[k], x)
  {
    RunKeepsAll(ys, es, k);
    if x in ys[k].sessions {
      ReadersAreFree(ys[k], x);
      LoopIsFree(ys[k], x);
      RestIsFree(ys[k], x);
    }
  }

  lemma ReceiveThenSnapshot(y: System, x: nat, p: string)
    requires Inv(y) && Enabled(y, Receive(x, p))
    ensures Enabled(Apply(y, Receive(x, p)), Snapshot(x))
  {
    assert LifeOk(y.channels, x, y.sessions[x]);
  }

  /** What comes next: after the handshake the channel is looked up, after that the session joins it; then it
      reads, broadcasts what it has read, and reads again. */
  lemma HandlersInOrder(y: System, e: Event, y': System)
    requires Inv(y) && Enabled(y, e) && y' == Apply(y, e)
    ensures e.Connect? ==> Enabled(y', AddChannel(e.x)) && Enabled(y', Refuse(e.x))
    ensures e.AddChannel? ==> Enabled(y', AddMember(e.x))
    ensures e.AddMember? || e.Finish? ==> Enabled(y', StopReading(e.x)) && forall p :: Enabled(y', Receive(e.x, p))
    ensures e.Receive? ==> Enabled(y', Snapshot(e.x))
    ensures e.Snapshot? ==> y'.sessions[e.x].phase.Sending?
  {
    if e.Receive? {
      ReceiveThenSnapshot(y, e.x, e.payload);
    }
  }

  /** The connect and read handlers of `x` have ended. */
  predicate Ended(y: System, x: nat) {
    x in y.sessions && (y.sessions[x].phase.Closed? || y.sessions[x].phase.Refused?)
  }

  lemma EndedStays(y: System, e: Event, x: nat)
    requires PinsOk(y) && Enabled(y, e) && Ended(y, x)
    ensures Ended(Apply(y, e), x)
  {
  }

  lemma {:induction false} EndedForEver(ys: seq<System>, es: seq<Event>, k: nat, m: nat, x: nat)
    requires IsRun(ys, es) && k <= m <= |es| && Ended(ys[k], x)
    ensures Ended(ys[m], x)
    decreases m - k
  {
    if k < m {
      RunKeepsAll(ys, es, k);
      EndedStays(ys[k], es[k], x);
      EndedForEver(ys, es, k + 1, m, x);
    }
  }

  lemma EndsNow(y: System, e: Event)
    requires Enabled(y, e) && (e.StopReading? || e.Refuse?)
    ensures Ended(Apply(y, e), e.x)
  {
  }

  /** After an error of a read or of the handshake, a session never joins, reads or broadcasts again. */
  lemma ErrorIsFinal(ys: seq<System>, es: seq<Event>, k: nat, m: nat, x: nat)
    requires IsRun(ys, es) && k < m <= |es| && (es[k] == StopReading(x) || es[k] == Refuse(x))
    ensures !Enabled(ys[m], AddChannel(x)) && !Enabled(ys[m], AddMember(x)) && !Enabled(ys[m], Snapshot(x))
    ensures forall p :: !Enabled(ys[m], Receive(x, p))
  {
    EndsNow(ys[k], es[k]);
    EndedForEver(ys, es, k + 1, m, x);
  }

  predicate HasBeenFreed(es: seq<Event>, k: int, r: nat)
    requires k <= |es|
  {
    exists j :: 0 <= j < k && es[j] == Free(r)
  }

  lemma FreedNext(y: System, e: Event, y': System, r: nat)
    requires Enabled(y, e) && y' == Apply(y, e)
    ensures r in y'.sessions && y'.sessions[r].freed <==> (r in y.sessions && y.sessions[r].freed) || e == Free(r)
  {
  }

  /** The memory of a session is gone exactly if it has been freed. */
  lemma {:induction false} FreedIff(ys: seq<System>, es: seq<Event>, k: nat, r: nat)
    requires IsRun(ys, es) && k <= |es|
    ensures HasBeenFreed(es, k, r) <==> r in ys[k].sessions && ys[k].sessions[r].freed
    decreases k
  {
    if k > 0 {
      FreedIff(ys, es, k - 1, r);
      FreedNext(ys[k - 1], es[k - 1], ys[k], r);
      assert HasBeenFreed(es, k, r) <==> HasBeenFreed(es, k - 1, r) || es[k - 1] == Free(r);
    }
  }
}
