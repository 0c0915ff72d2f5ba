/** What every run of the many-session system delivers: the mail of a recipient from a sender is exactly the
    sender's broadcasts whose snapshot held the recipient and whose promotion succeeded, in the order in
    which the sender received them. */
module Delivery {
  import opened WriteQueue
  import opened GlobalWebsocketState
  import opened Fanout

  /** The messages of sender `x` among `ms`. */
  function From(ms: seq<Message>, x: nat): (own: seq<Message>)
    decreases |ms|
  {
    if ms == [] then []
    else From(ms[..|ms| - 1], x) + (if ms[|ms| - 1].sender == x then [ms[|ms| - 1]] else [])
  }

  predicate Promoted(fates: map<Hop, bool>, h: Hop) { h in fates && fates[h] }

  /** The first `n` messages `x` received, as far as the promotion of `r` succeeded for them. */
  function Sent(inbox: seq<string>, fates: map<Hop, bool>, x: nat, r: nat, n: nat): (ms: seq<Message>)
    requires n <= |inbox|
  {
    if n == 0 then []
    else Sent(inbox, fates, x, r, n - 1)
         + (if Promoted(fates, Hop(x, n - 1, r)) then [Message(x, n - 1, inbox[n - 1])] else [])
  }

  function InboxOf(y: System, x: nat): seq<string> { if x in y.sessions then y.sessions[x].inbox else [] }

  function SentTo(y: System, x: nat, r: nat): seq<Message> { Sent(InboxOf(y, x), y.fates, x, r, |InboxOf(y, x)|) }

  lemma FromAppend(ms: seq<Message>, m: Message, x: nat)
    ensures From(ms + [m], x) == From(ms, x) + (if m.sender == x then [m] else [])
  {
    assert (ms + [m])[..|ms|] == ms;
  }

  lemma {:induction false} SentStable(inbox: seq<string>, inbox': seq<string>, f: map<Hop, bool>, f': map<Hop, bool>,
                                      x: nat, r: nat, n: nat)
    requires n <= |inbox| && n <= |inbox'| && inbox[..n] == inbox'[..n]
    requires forall i: nat :: i < n ==> Promoted(f, Hop(x, i, r)) == Promoted(f', Hop(x, i, r))
    ensures Sent(inbox, f, x, r, n) == Sent(inbox', f', x, r, n)
  {
    if n > 0 {
      assert inbox[..n][n - 1] == inbox'[..n][n - 1];
      assert inbox[..n - 1] == inbox[..n][..n - 1] == inbox'[..n][..n - 1] == inbox'[..n - 1];
      SentStable(inbox, inbox', f, f', x, r, n - 1);
    }
  }

  // --- what a run has recorded --------------------------------------------------------------

  ghost predicate MailOk(y: System) {
    forall x: nat, r :: r in y.sessions ==> From(Delivered(y.sessions[r]), x) == SentTo(y, x, r)
  }

  /** The loop of `x` for its message `n` still has `r` to come. */
  predicate Pending(y: System, x: nat, n: nat, r: nat)
    requires x in y.sessions
  {
    var s := y.sessions[x];
    s.phase.Sending? && n + 1 == |s.inbox| && r in s.phase.todo
  }

  /** A recipient is tried once, it was in the snapshot, and if its promotion failed it is dead. */
  predicate FateOk(y: System, h: Hop) {
    && h.sender in y.sessions && h.recipient in y.sessions
    && Round(h.sender, h.number) in y.snapshots && h.recipient in y.snapshots[Round(h.sender, h.number)]
    && !Pending(y, h.sender, h.number, h.recipient)
    && (h in y.fates && !y.fates[h] ==> h.recipient != h.sender && !Alive(y.sessions[h.recipient]))
  }

  ghost predicate FatesOk(y: System) { forall h :: h in y.fates ==> FateOk(y, h) }

  /** The members a snapshot found: the sender among them, all of its channel, each tried or still to come. */
  ghost predicate SnapOk(y: System, k: Round) {
    && k.sender in y.sessions && k in y.snapshots && k.sender in y.snapshots[k]
    && k.number < |y.sessions[k.sender].inbox|
    && (y.sessions[k.sender].phase.Received? ==> k.number + 1 < |y.sessions[k.sender].inbox|)
    && forall r :: r in y.snapshots[k] ==>
         && r in y.sessions && y.sessions[r].channel == y.sessions[k.sender].channel && Joined(y.sessions[r])
         && (Hop(k.sender, k.number, r) in y.fates || Pending(y, k.sender, k.number, r))
  }

  ghost predicate SnapsOk(y: System) { forall k :: k in y.snapshots ==> SnapOk(y, k) }

  /** Every message received has its snapshot, but for the one being taken. */
  ghost predicate RoundsOk(y: System) {
    forall x, n: nat :: x in y.sessions && n < |y.sessions[x].inbox| ==>
      (Round(x, n) in y.snapshots || (y.sessions[x].phase.Received? && n + 1 == |y.sessions[x].inbox|))
  }

  predicate TodoOk(y: System, x: nat, s: Session) {
    s.phase.Sending? ==>
      && s.inbox != [] && Round(x, |s.inbox| - 1) in y.snapshots && s.phase.todo <= y.snapshots[Round(x, |s.inbox| - 1)]
  }

  ghost predicate TodosOk(y: System) { forall x :: x in y.sessions ==> TodoOk(y, x, y.sessions[x]) }

  predicate Follows(y: System, k: Round, j: Round, r: nat) {
    k.sender == j.sender && k.number <= j.number && r in y.sessions && !y.sessions[r].left
  }

  /** Who was found by one snapshot and has not been removed is found by all later ones of that sender. */
  ghost predicate NoGaps(y: System) {
    forall k, j, r :: k in y.snapshots && j in y.snapshots && r in y.snapshots[k] && Follows(y, k, j, r) ==>
      r in y.snapshots[j]
  }

  ghost predicate History(y: System) { MailOk(y) && FatesOk(y) && SnapsOk(y) && RoundsOk(y) && TodosOk(y) && NoGaps(y) }

  lemma FateOf(y: System, h: Hop)
    requires FatesOk(y) && h in y.fates
    ensures FateOk(y, h)
  {
  }

  lemma SnapOf(y: System, k: Round)
    requires SnapsOk(y) && k in y.snapshots
    ensures SnapOk(y, k)
  {
  }

  // --- steps that record nothing ------------------------------------------------------------

  predicate Calm(s: Session, s': Session) {
    && s'.inbox == s.inbox && Delivered(s') == Delivered(s) && s'.channel == s.channel
    && (Joined(s) ==> Joined(s')) && (s.left ==> s'.left) && (!Alive(s) ==> !Alive(s'))
    && s'.phase.Received? == s.phase.Received?
    && (s'.phase.Sending? ==> s.phase.Sending? && s'.phase.todo == s.phase.todo)
    && (s.phase.Sending? && !s'.phase.Sending? ==> s.phase.todo == {})
  }

  ghost predicate CalmStep(y: System, y': System) {
    && y'.sessions.Keys == y.sessions.Keys && y'.snapshots == y.snapshots && y'.fates == y.fates
    && forall z :: z in y.sessions ==> Calm(y.sessions[z], y'.sessions[z])
  }

  lemma CalmMail(y: System, y': System)
    requires MailOk(y) && CalmStep(y, y')
    ensures MailOk(y')
  {
    forall x: nat, r | r in y'.sessions
      ensures From(Delivered(y'.sessions[r]), x) == SentTo(y', x, r)
    {
      assert InboxOf(y', x) == InboxOf(y, x);
    }
  }

  lemma CalmFates(y: System, y': System)
    requires FatesOk(y) && CalmStep(y, y')
    ensures FatesOk(y')
  {
    forall h | h in y'.fates
      ensures FateOk(y', h)
    {
      FateOf(y, h);
    }
  }

  lemma CalmSnaps(y: System, y': System)
    requires SnapsOk(y) && CalmStep(y, y')
    ensures SnapsOk(y')
  {
    forall k | k in y'.snapshots
      ensures SnapOk(y', k)
    {
      SnapOf(y, k);
    }
  }

  lemma CalmRounds(y: System, y': System)
    requires RoundsOk(y) && TodosOk(y) && CalmStep(y, y')
    ensures RoundsOk(y') && TodosOk(y')
  {
    forall x | x in y'.sessions
      ensures TodoOk(y', x, y'.sessions[x])
    {
      assert TodoOk(y, x, y.sessions[x]);
    }
  }

  lemma CalmGaps(y: System, y': System)
    requires NoGaps(y) && CalmStep(y, y')
    ensures NoGaps(y')
  {
  }

  lemma CalmHistory(y: System, y': System)
    requires History(y) && CalmStep(y, y')
    ensures History(y')
  {
    CalmMail(y, y');
    CalmFates(y, y');
    CalmSnaps(y, y');
    CalmRounds(y, y');
    CalmGaps(y, y');
  }

  /** A session that has lost its last reference never gets one again, and no message. */
  lemma DeadStaysDead(y: System, e: Event, z: nat)
    requires PinsOk(y) && Enabled(y, e) && z in y.sessions && !Alive(y.sessions[z])
    ensures z in Apply(y, e).sessions && !Alive(Apply(y, e).sessions[z])
    ensures Delivered(Apply(y, e).sessions[z]) == Delivered(y.sessions[z])
  {
    if e.Post? {
      HeldIsPinned(y, e.x);
      DeadNotPosted(y, e.x, z);
    } else if e.Promote? {
      assert e.x != z;
    } else if e.x != z {
      assert Apply(y, e).sessions[z] == y.sessions[z];
    }
  }

  lemma HeldIsPinned(y: System, x: nat)
    requires PinsOk(y) && Enabled(y, Post(x))
    ensures Alive(y.sessions[y.sessions[x].phase.held.id])
  {
    assert HeldOf(y.sessions[x]).Holding?;
  }

  lemma DeadNotPosted(y: System, x: nat, z: nat)
    requires Enabled(y, Post(x)) && z in y.sessions && x != z && z != y.sessions[x].phase.held.id
    ensures z in Hand(y, x).sessions && Hand(y, x).sessions[z] == y.sessions[z]
  {
  }

  lemma TakenOffTheStrand(s: Session)
    requires s.posted != [] && Ordered(s.writer)
    ensures Delivered(s.(posted := s.posted[1..], writer := Accept(s.writer, s.posted[0]))) == Delivered(s)
  {
    AcceptOrdered(s.writer, s.posted[0]);
    assert s.posted == [s.posted[0]] + s.posted[1..];
  }

  lemma CalmOnBroadcast(y: System, x: nat)
    requires QueuesOk(y) && Enabled(y, OnBroadcast(x))
    ensures CalmStep(y, Apply(y, OnBroadcast(x)))
  {
    var s := y.sessions[x];
    TakenOffTheStrand(s);
    assert Calm(s, Apply(y, OnBroadcast(x)).sessions[x]);
  }

  lemma CalmOnWrite(y: System, x: nat, ok: bool)
    requires QueuesOk(y) && Enabled(y, OnWrite(x, ok))
    ensures CalmStep(y, Apply(y, OnWrite(x, ok)))
  {
    var s := y.sessions[x];
    CompleteOrdered(s.writer, ok);
    assert Calm(s, Apply(y, OnWrite(x, ok)).sessions[x]);
  }

  lemma CalmReader(y: System, e: Event)
    requires Enabled(y, e) && (e.Refuse? || e.StopReading? || e.Finish?)
    ensures CalmStep(y, Apply(y, e))
  {
  }

  lemma CalmMembership(y: System, e: Event)
    requires Enabled(y, e) && (e.AddChannel? || e.AddMember? || e.Leave? || e.Free?)
    ensures CalmStep(y, Apply(y, e))
  {
  }

  lemma CalmPin(y: System, x: nat, r: nat)
    requires Enabled(y, Promote(x, r)) && Alive(In(y, r))
    ensures CalmStep(y, Pin(y, x, r))
  {
    var y' := Pin(y, x, r);
    assert Calm(y.sessions[r], y'.sessions[r]);
    assert Calm(y.sessions[x], y'.sessions[x]);
  }

  // --- steps that record ----------------------------------------------------------------------

  lemma ConnectHistory(y: System, x: nat, c: string)
    requires History(y) && Enabled(y, Connect(x, c))
    ensures History(Apply(y, Connect(x, c)))
  {
    var y' := Apply(y, Connect(x, c));
    ConnectMail(y, y', x, c);
    ConnectFates(y, y', x, c);
    ConnectSnaps(y, y', x, c);
    ConnectRounds(y, y', x, c);
    ConnectGaps(y, y', x, c);
  }

  lemma ConnectFates(y: System, y': System, x: nat, c: string)
    requires FatesOk(y) && Enabled(y, Connect(x, c)) && y' == Apply(y, Connect(x, c))
    ensures FatesOk(y')
  {
    forall h | h in y'.fates
      ensures FateOk(y', h)
    {
      FateOf(y, h);
    }
  }

  lemma ConnectSnaps(y: System, y': System, x: nat, c: string)
    requires SnapsOk(y) && Enabled(y, Connect(x, c)) && y' == Apply(y, Connect(x, c))
    ensures SnapsOk(y')
  {
    forall k | k in y'.snapshots
      ensures SnapOk(y', k)
    {
      SnapOf(y, k);
    }
  }

  lemma ConnectRounds(y: System, y': System, x: nat, c: string)
    requires RoundsOk(y) && TodosOk(y) && Enabled(y, Connect(x, c)) && y' == Apply(y, Connect(x, c))
    ensures RoundsOk(y') && TodosOk(y')
  {
    forall z | z in y'.sessions
      ensures TodoOk(y', z, y'.sessions[z])
    {
      if z != x {
        assert TodoOk(y, z, y.sessions[z]);
      }
    }
  }

  lemma ConnectGaps(y: System, y': System, x: nat, c: string)
    requires NoGaps(y) && SnapsOk(y) && Enabled(y, Connect(x, c)) && y' == Apply(y, Connect(x, c))
    ensures NoGaps(y')
  {
    forall k, j, r | k in y'.snapshots && j in y'.snapshots && r in y'.snapshots[k] && Follows(y', k, j, r)
      ensures r in y'.snapshots[j]
    {
      SnapOf(y, k);
    }
  }

  lemma ConnectMail(y: System, y': System, x: nat, c: string)
    requires MailOk(y) && FatesOk(y) && Enabled(y, Connect(x, c)) && y' == Apply(y, Connect(x, c))
    ensures MailOk(y')
  {
    forall z: nat, r | r in y'.sessions
      ensures From(Delivered(y'.sessions[r]), z) == SentTo(y', z, r)
    {
      var inbox := InboxOf(y, z);
      assert InboxOf(y', z) == inbox;
      if r == x {
        SentNothing(y, inbox, z, x, |inbox|);
      }
    }
  }

  lemma {:induction false} SentNothing(y: System, inbox: seq<string>, x: nat, r: nat, n: nat)
    requires FatesOk(y) && r !in y.sessions && n <= |inbox|
    ensures Sent(inbox, y.fates, x, r, n) == []
  {
    if n > 0 {
      SentNothing(y, inbox, x, r, n - 1);
      if Hop(x, n - 1, r) in y.fates {
        NoFate(y, Hop(x, n - 1, r));
      }
    }
  }

  lemma NoFate(y: System, h: Hop)
    requires FatesOk(y) && h.recipient !in y.sessions
    ensures h !in y.fates
  {
    if h in y.fates {
      FateOf(y, h);
    }
  }

  lemma ReceiveHistory(y: System, x: nat, p: string)
    requires History(y) && Enabled(y, Receive(x, p))
    ensures History(Apply(y, Receive(x, p)))
  {
    var y' := Apply(y, Receive(x, p));
    ReceiveMail(y, y', x, p);
    ReceiveFates(y, y', x, p);
    ReceiveSnaps(y, y', x, p);
    ReceiveRounds(y, y', x, p);
    ReceiveGaps(y, y', x, p);
  }

  lemma ReceiveFates(y: System, y': System, x: nat, p: string)
    requires FatesOk(y) && Enabled(y, Receive(x, p)) && y' == Apply(y, Receive(x, p))
    ensures FatesOk(y')
  {
    forall h | h in y'.fates
      ensures FateOk(y', h)
    {
      FateOf(y, h);
    }
  }

  lemma ReceiveGaps(y: System, y': System, x: nat, p: string)
    requires NoGaps(y) && Enabled(y, Receive(x, p)) && y' == Apply(y, Receive(x, p))
    ensures NoGaps(y')
  {
    forall k, j, r | k in y'.snapshots && j in y'.snapshots && r in y'.snapshots[k] && Follows(y', k, j, r)
      ensures r in y'.snapshots[j]
    {
      assert Follows(y, k, j, r);
    }
  }

  lemma ReceiveSnaps(y: System, y': System, x: nat, p: string)
    requires SnapsOk(y) && Enabled(y, Receive(x, p)) && y' == Apply(y, Receive(x, p))
    ensures SnapsOk(y')
  {
    forall k | k in y'.snapshots
      ensures SnapOk(y', k)
    {
      SnapOf(y, k);
    }
  }

  lemma ReceiveRounds(y: System, y': System, x: nat, p: string)
    requires RoundsOk(y) && TodosOk(y) && Enabled(y, Receive(x, p)) && y' == Apply(y, Receive(x, p))
    ensures RoundsOk(y') && TodosOk(y')
  {
    forall z | z in y'.sessions
      ensures TodoOk(y', z, y'.sessions[z])
    {
      assert TodoOk(y, z, y.sessions[z]);
    }
  }

  lemma ReceiveMail(y: System, y': System, x: nat, p: string)
    requires MailOk(y) && FatesOk(y) && SnapsOk(y) && Enabled(y, Receive(x, p)) && y' == Apply(y, Receive(x, p))
    ensures MailOk(y')
  {
    var n := |InboxOf(y, x)|;
    forall z: nat, r | r in y'.sessions
      ensures From(Delivered(y'.sessions[r]), z) == SentTo(y', z, r)
    {
      assert Delivered(y'.sessions[r]) == Delivered(y.sessions[r]);
      if z != x {
        assert InboxOf(y', z) == InboxOf(y, z);
      } else {
        NoFateYet(y, Hop(x, n, r));
        SentStable(InboxOf(y, x), InboxOf(y', x), y.fates, y'.fates, x, r, n);
      }
    }
  }

  lemma NoFateYet(y: System, h: Hop)
    requires FatesOk(y) && SnapsOk(y) && h.sender in y.sessions && h.number >= |y.sessions[h.sender].inbox|
    ensures h !in y.fates
  {
    if h in y.fates {
      FateOf(y, h);
      SnapOf(y, Round(h.sender, h.number));
    }
  }

  lemma SnapshotHistory(y: System, x: nat)
    requires Inv(y) && History(y) && Enabled(y, Snapshot(x))
    ensures History(Apply(y, Snapshot(x)))
  {
    var y' := Apply(y, Snapshot(x));
    SnapshotMail(y, y', x);
    SnapshotFates(y, y', x);
    SnapshotSnaps(y, y', x);
    SnapshotRounds(y, y', x);
    SnapshotGaps(y, y', x);
  }

  lemma SnapshotMail(y: System, y': System, x: nat)
    requires MailOk(y) && Enabled(y, Snapshot(x)) && y' == Apply(y, Snapshot(x))
    ensures MailOk(y')
  {
    forall z: nat, r | r in y'.sessions
      ensures From(Delivered(y'.sessions[r]), z) == SentTo(y', z, r)
    {
      assert InboxOf(y', z) == InboxOf(y, z);
      assert Delivered(y'.sessions[r]) == Delivered(y.sessions[r]);
    }
  }

  lemma SnapshotFate(y: System, y': System, x: nat, h: Hop)
    requires FateOk(y, h) && SnapOk(y, Round(h.sender, h.number))
    requires Enabled(y, Snapshot(x)) && y' == Apply(y, Snapshot(x)) && h in y.fates
    ensures FateOk(y', h)
  {
  }

  lemma SnapshotFates(y: System, y': System, x: nat)
    requires FatesOk(y) && SnapsOk(y) && Enabled(y, Snapshot(x)) && y' == Apply(y, Snapshot(x))
    ensures FatesOk(y')
  {
    forall h | h in y'.fates
      ensures FateOk(y', h)
    {
      FateOf(y, h);
      SnapOf(y, Round(h.sender, h.number));
      SnapshotFate(y, y', x, h);
    }
  }

  lemma SnapshotSnaps(y: System, y': System, x: nat)
    requires LivesOk(y) && MembersOk(y) && SnapsOk(y) && Enabled(y, Snapshot(x)) && y' == Apply(y, Snapshot(x))
    ensures SnapsOk(y')
  {
    assert LifeOk(y.channels, x, y.sessions[x]);
    forall k | k in y'.snapshots
      ensures SnapOk(y', k)
    {
      if k != Round(x, |y.sessions[x].inbox| - 1) {
        SnapOf(y, k);
      }
    }
  }

  lemma SnapshotRounds(y: System, y': System, x: nat)
    requires RoundsOk(y) && TodosOk(y) && Enabled(y, Snapshot(x)) && y' == Apply(y, Snapshot(x))
    ensures RoundsOk(y') && TodosOk(y')
  {
    forall z | z in y'.sessions
      ensures TodoOk(y', z, y'.sessions[z])
    {
      assert TodoOk(y, z, y.sessions[z]);
    }
  }

  lemma SnapshotGaps(y: System, y': System, x: nat)
    requires LivesOk(y) && SnapsOk(y) && NoGaps(y) && Enabled(y, Snapshot(x)) && y' == Apply(y, Snapshot(x))
    ensures NoGaps(y')
  {
    forall k, j, r | k in y'.snapshots && j in y'.snapshots && r in y'.snapshots[k] && Follows(y', k, j, r)
      ensures r in y'.snapshots[j]
    {
      var latest := Round(x, |y.sessions[x].inbox| - 1);
      if k != latest {
        SnapOf(y, k);
        assert LifeOk(y.channels, r, y.sessions[r]);
      } else if j != latest {
        SnapOf(y, j);
      }
    }
  }

  /** What skipping and posting have in common: the recipient `r` of the running loop gets its fate. */
  ghost predicate Settles(y: System, y': System, x: nat, r: nat, fate: bool) {
    && x in y.sessions && y.sessions[x].phase.Sending? && r in y.sessions[x].phase.todo && r in y.sessions
    && y'.sessions.Keys == y.sessions.Keys && y'.snapshots == y.snapshots
    && y.sessions[x].phase.message.number + 1 == |y.sessions[x].inbox|
    && y'.fates == y.fates[Hop(x, y.sessions[x].phase.message.number, r) := fate]
    && (forall z :: z in y.sessions && z != x ==> y'.sessions[z].phase == y.sessions[z].phase)
    && (forall z :: z in y.sessions ==> Settled(y.sessions[z], y'.sessions[z]))
    && y'.sessions[x].phase.Sending? && y'.sessions[x].phase.todo == y.sessions[x].phase.todo - {r}
    && (!fate ==> r != x && !Alive(y'.sessions[r]))
  }

  predicate Settled(s: Session, s': Session) {
    s'.inbox == s.inbox && s'.channel == s.channel && s'.left == s.left && (!Alive(s) ==> !Alive(s'))
  }

  lemma SettlesFates(y: System, y': System, x: nat, r: nat, fate: bool)
    requires FatesOk(y) && TodosOk(y) && Settles(y, y', x, r, fate)
    ensures FatesOk(y')
  {
    assert TodoOk(y, x, y.sessions[x]);
    forall h | h in y'.fates
      ensures FateOk(y', h)
    {
      if h in y.fates {
        FateOf(y, h);
      }
    }
  }

  lemma SettlesSnap(y: System, y': System, x: nat, r: nat, fate: bool, k: Round)
    requires SnapOk(y, k) && Settles(y, y', x, r, fate)
    ensures SnapOk(y', k)
  {
    var n := y.sessions[x].phase.message.number;
    forall q | q in y'.snapshots[k]
      ensures Hop(k.sender, k.number, q) in y'.fates || Pending(y', k.sender, k.number, q)
    {
      if k == Round(x, n) && q == r {
        assert Hop(k.sender, k.number, q) in y'.fates;
      }
    }
  }

  lemma SettlesSnaps(y: System, y': System, x: nat, r: nat, fate: bool)
    requires SnapsOk(y) && Settles(y, y', x, r, fate)
    ensures SnapsOk(y')
  {
    forall k | k in y'.snapshots
      ensures SnapOk(y', k)
    {
      SettlesSnap(y, y', x, r, fate, k);
    }
  }

  lemma SettlesRest(y: System, y': System, x: nat, r: nat, fate: bool)
    requires RoundsOk(y) && TodosOk(y) && NoGaps(y) && Settles(y, y', x, r, fate)
    ensures RoundsOk(y') && TodosOk(y') && NoGaps(y')
  {
    forall z | z in y'.sessions
      ensures TodoOk(y', z, y'.sessions[z])
    {
      assert TodoOk(y, z, y.sessions[z]);
    }
  }

  lemma NotYetTried(y: System, x: nat, r: nat)
    requires FatesOk(y) && x in y.sessions && y.sessions[x].phase.Sending? && r in y.sessions[x].phase.todo
    requires y.sessions[x].phase.message.number + 1 == |y.sessions[x].inbox|
    ensures Hop(x, y.sessions[x].phase.message.number, r) !in y.fates
  {
    var h := Hop(x, y.sessions[x].phase.message.number, r);
    if h in y.fates {
      FateOf(y, h);
    }
  }

  lemma SkipHistory(y: System, x: nat, r: nat)
    requires LoopsOk(y) && History(y) && Enabled(y, Promote(x, r)) && !Alive(In(y, r))
    ensures History(Skip(y, x, r))
  {
    var y' := Skip(y, x, r);
    SkipSettles(y, y', x, r);
    SettlesFates(y, y', x, r, false);
    SettlesSnaps(y, y', x, r, false);
    SettlesRest(y, y', x, r, false);
    SkipMail(y, y', x, r);
  }

  lemma SkipSettles(y: System, y': System, x: nat, r: nat)
    requires LoopsOk(y) && Enabled(y, Promote(x, r)) && !Alive(In(y, r)) && y' == Skip(y, x, r)
    ensures Settles(y, y', x, r, false)
  {
    assert LoopOk(y, x, y.sessions[x]);
  }

  lemma SkipMail(y: System, y': System, x: nat, r: nat)
    requires LoopsOk(y) && MailOk(y) && FatesOk(y) && Enabled(y, Promote(x, r)) && y' == Skip(y, x, r)
    ensures MailOk(y')
  {
    assert LoopOk(y, x, y.sessions[x]);
    NotYetTried(y, x, r);
    forall z: nat, q | q in y'.sessions
      ensures From(Delivered(y'.sessions[q]), z) == SentTo(y', z, q)
    {
      assert InboxOf(y', z) == InboxOf(y, z);
      assert Delivered(y'.sessions[q]) == Delivered(y.sessions[q]);
      SentStable(InboxOf(y, z), InboxOf(y', z), y.fates, y'.fates, z, q, |InboxOf(y, z)|);
    }
  }

  lemma HandHistory(y: System, x: nat)
    requires Inv(y) && History(y) && Enabled(y, Post(x))
    ensures History(Hand(y, x))
  {
    var y' := Hand(y, x);
    var r := y.sessions[x].phase.held.id;
    HandSettles(y, y', x);
    SettlesFates(y, y', x, r, true);
    SettlesSnaps(y, y', x, r, true);
    SettlesRest(y, y', x, r, true);
    HandMail(y, y', x);
  }

  lemma HandSettles(y: System, y': System, x: nat)
    requires LoopsOk(y) && PinsOk(y) && Enabled(y, Post(x)) && y' == Hand(y, x)
    ensures Settles(y, y', x, y.sessions[x].phase.held.id, true)
  {
    assert LoopOk(y, x, y.sessions[x]);
    HeldIsPinned(y, x);
  }

  lemma HandMail(y: System, y': System, x: nat)
    requires LoopsOk(y) && MailOk(y) && FatesOk(y) && Enabled(y, Post(x)) && y' == Hand(y, x)
    ensures MailOk(y')
  {
    assert LoopOk(y, x, y.sessions[x]);
    NotYetTried(y, x, y.sessions[x].phase.held.id);
    forall z: nat, q | q in y'.sessions
      ensures From(Delivered(y'.sessions[q]), z) == SentTo(y', z, q)
    {
      HandMailFor(y, y', x, z, q);
    }
  }

  lemma HandMailFor(y: System, y': System, x: nat, z: nat, q: nat)
    requires Enabled(y, Post(x)) && y' == Hand(y, x) && q in y.sessions
    requires LoopOk(y, x, y.sessions[x])
    requires Hop(x, y.sessions[x].phase.message.number, y.sessions[x].phase.held.id) !in y.fates
    requires From(Delivered(y.sessions[q]), z) == SentTo(y, z, q)
    ensures From(Delivered(y'.sessions[q]), z) == SentTo(y', z, q)
  {
    var p := y.sessions[x].phase;
    HandDelivers(y, y', x, q);
    FromAppend(Delivered(y.sessions[q]), p.message, z);
    HandSent(y, y', x, z, q);
  }

  lemma HandSent(y: System, y': System, x: nat, z: nat, q: nat)
    requires Enabled(y, Post(x)) && y' == Hand(y, x)
    requires LoopOk(y, x, y.sessions[x])
    requires Hop(x, y.sessions[x].phase.message.number, y.sessions[x].phase.held.id) !in y.fates
    ensures SentTo(y', z, q) ==
            SentTo(y, z, q) + (if z == x && q == y.sessions[x].phase.held.id then [y.sessions[x].phase.message] else [])
  {
    var inbox := InboxOf(y, z);
    assert InboxOf(y', z) == inbox;
    if z == x && q == y.sessions[x].phase.held.id {
      SentStable(inbox, inbox, y.fates, y'.fates, z, q, |inbox| - 1);
    } else {
      SentStable(inbox, inbox, y.fates, y'.fates, z, q, |inbox|);
    }
  }

  lemma HandDelivers(y: System, y': System, x: nat, q: nat)
    requires Enabled(y, Post(x)) && y' == Hand(y, x) && q in y.sessions
    ensures Delivered(y'.sessions[q]) ==
            Delivered(y.sessions[q]) + (if q == y.sessions[x].phase.held.id then [y.sessions[x].phase.message] else [])
  {
  }

  lemma StepKeepsHistory(y: System, e: Event)
    requires Inv(y) && History(y) && Enabled(y, e)
    ensures History(Apply(y, e))
  {
    if e.Connect? {
      ConnectHistory(y, e.x, e.channel);
    } else if e.Receive? {
      ReceiveHistory(y, e.x, e.payload);
    } else if e.Snapshot? {
      SnapshotHistory(y, e.x);
    } else if e.Promote? {
      PromoteHistory(y, e.x, e.r);
    } else if e.Post? {
      HandHistory(y, e.x);
    } else {
      CalmOwn(y, e);
      CalmHistory(y, Apply(y, e));
    }
  }

  lemma PromoteHistory(y: System, x: nat, r: nat)
    requires LoopsOk(y) && History(y) && Enabled(y, Promote(x, r))
    ensures History(Apply(y, Promote(x, r)))
  {
    if Alive(In(y, r)) {
      CalmPin(y, x, r);
      CalmHistory(y, Pin(y, x, r));
    } else {
      SkipHistory(y, x, r);
    }
  }

  lemma CalmOwn(y: System, e: Event)
    requires QueuesOk(y) && Enabled(y, e) && !e.Connect? && !e.Receive? && !e.Snapshot? && !e.Promote? && !e.Post?
    ensures CalmStep(y, Apply(y, e))
  {
    match e
    case OnBroadcast(x) => CalmOnBroadcast(y, x);
    case OnWrite(x, ok) => CalmOnWrite(y, x, ok);
    case Refuse(_) => CalmReader(y, e);
    case StopReading(_) => CalmReader(y, e);
    case Finish(_) => CalmReader(y, e);
    case _ => CalmMembership(y, e);
  }

  // --- whole runs -----------------------------------------------------------------------------

  ghost predicate IsRun(ys: seq<System>, es: seq<Event>) {
    && |ys| == |es| + 1 && Initial(ys[0])
    && forall k :: 0 <= k < |es| ==> Enabled(ys[k], es[k]) && ys[k + 1] == Apply(ys[k], es[k])
  }

  lemma {:induction false} RunKeepsAll(ys: seq<System>, es: seq<Event>, k: nat)
    requires IsRun(ys, es) && k <= |es|
    ensures Inv(ys[k]) && History(ys[k])
  {
    if k == 0 {
      InitialAll(ys[0]);
    } else {
      RunKeepsAll(ys, es, k - 1);
      StepKeepsInv(ys[k - 1], es[k - 1]);
      StepKeepsHistory(ys[k - 1], es[k - 1]);
    }
  }

  lemma InitialAll(y: System)
    requires Initial(y)
    ensures Inv(y) && History(y)
  {
  }

  lemma {:induction false} FromMembers(ms: seq<Message>, x: nat, m: Message)
    ensures m in From(ms, x) <==> m in ms && m.sender == x
    decreases |ms|
  {
    if ms != [] {
      FromMembers(ms[..|ms| - 1], x, m);
      assert ms == ms[..|ms| - 1] + [ms[|ms| - 1]];
    }
  }

  lemma {:induction false} SentMembers(inbox: seq<string>, fates: map<Hop, bool>, x: nat, r: nat, n: nat, m: Message)
    requires n <= |inbox|
    ensures m in Sent(inbox, fates, x, r, n) <==>
            m.sender == x && m.number < n && m.payload == inbox[m.number] && Promoted(fates, Hop(x, m.number, r))
  {
    if n > 0 {
      SentMembers(inbox, fates, x, r, n - 1, m);
    }
  }

  /** A message has been handed to `r` exactly if its sender received it with that payload, the snapshot
      taken for it held `r`, and the promotion of `r` succeeded. */
  lemma DeliveredIff(ys: seq<System>, es: seq<Event>, k: nat, r: nat, m: Message)
    requires IsRun(ys, es) && k <= |es| && r in ys[k].sessions
    ensures var y, round, hop := ys[k], Round(m.sender, m.number), Hop(m.sender, m.number, r);
            m in Delivered(y.sessions[r]) <==>
              m.sender in y.sessions && m.number < |y.sessions[m.sender].inbox|
              && m.payload == y.sessions[m.sender].inbox[m.number]
              && round in y.snapshots && r in y.snapshots[round] && hop in y.fates && y.fates[hop]
  {
    var y, x := ys[k], m.sender;
    RunKeepsAll(ys, es, k);
    FromMembers(Delivered(y.sessions[r]), x, m);
    SentMembers(InboxOf(y, x), y.fates, x, r, |InboxOf(y, x)|, m);
    if Hop(x, m.number, r) in y.fates {
      FateOf(y, Hop(x, m.number, r));
    }
  }

  /** Everyone a snapshot found is tried, unless the loop is still running; a promotion fails only for a
      session that is dead, and stays dead, and never for the sender itself. */
  lemma SnapshotSettled(ys: seq<System>, es: seq<Event>, k: nat, x: nat, n: nat, r: nat)
    requires IsRun(ys, es) && k <= |es| && Round(x, n) in ys[k].snapshots && r in ys[k].snapshots[Round(x, n)]
    ensures var y, hop := ys[k], Hop(x, n, r);
            && x in y.sessions && r in y.sessions && x in y.snapshots[Round(x, n)]
            && (hop in y.fates <==> !Pending(y, x, n, r))
            && (hop in y.fates && !y.fates[hop] ==> r != x && forall j :: k <= j <= |es| ==> Dead(ys[j], r))
  {
    var y, hop := ys[k], Hop(x, n, r);
    RunKeepsAll(ys, es, k);
    SnapOf(y, Round(x, n));
    if hop in y.fates {
      FateOf(y, hop);
      if !y.fates[hop] {
        forall j | k <= j <= |es|
          ensures Dead(ys[j], r)
        {
          DeadForEver(ys, es, k, j, r);
        }
      }
    }
  }

  predicate Dead(y: System, r: nat) { r in y.sessions && !Alive(y.sessions[r]) }

  lemma {:induction false} DeadForEver(ys: seq<System>, es: seq<Event>, k: nat, j: nat, r: nat)
    requires IsRun(ys, es) && k <= j <= |es| && Dead(ys[k], r)
    ensures Dead(ys[j], r) && Delivered(ys[j].sessions[r]) == Delivered(ys[k].sessions[r])
    decreases j - k
  {
    if k < j {
      RunKeepsAll(ys, es, k);
      DeadStaysDead(ys[k], es[k], r);
      DeadForEver(ys, es, k + 1, j, r);
    }
  }

  /** The mail of one sender arrives in the order in which the sender received it, nothing twice. */
  lemma InOrderAndOnce(ys: seq<System>, es: seq<Event>, k: nat, r: nat, i: nat, j: nat)
    requires IsRun(ys, es) && k <= |es| && r in ys[k].sessions && i < j < |Delivered(ys[k].sessions[r])|
    requires Delivered(ys[k].sessions[r])[i].sender == Delivered(ys[k].sessions[r])[j].sender
    ensures Delivered(ys[k].sessions[r])[i].number < Delivered(ys[k].sessions[r])[j].number
  {
    var y := ys[k];
    var ms := Delivered(y.sessions[r]);
    var x := ms[i].sender;
    RunKeepsAll(ys, es, k);
    SentAscends(InboxOf(y, x), y.fates, x, r, |InboxOf(y, x)|);
    FromAscends(ms, x, i, j);
  }

  ghost predicate Ascending(ms: seq<Message>) { forall a, b :: 0 <= a < b < |ms| ==> ms[a].number < ms[b].number }

  lemma {:induction false} SentAscends(inbox: seq<string>, fates: map<Hop, bool>, x: nat, r: nat, n: nat)
    requires n <= |inbox|
    ensures Ascending(Sent(inbox, fates, x, r, n)) && forall m :: m in Sent(inbox, fates, x, r, n) ==> m.number < n
  {
    if n > 0 {
      SentAscends(inbox, fates, x, r, n - 1);
    }
  }

  lemma {:induction false} FromAscends(ms: seq<Message>, x: nat, i: nat, j: nat)
    requires Ascending(From(ms, x)) && i < j < |ms| && ms[i].sender == ms[j].sender == x
    ensures ms[i].number < ms[j].number
    decreases |ms|
  {
    var front := ms[..|ms| - 1];
    if j < |front| {
      assert From(front, x) == From(ms, x)[..|From(front, x)|];
      FromAscends(front, x, i, j);
    } else {
      assert front[i] == ms[i];
      FromMembers(front, x, ms[i]);
      var own := From(front, x);
      var a :| 0 <= a < |own| && own[a] == ms[i];
      assert From(ms, x) == own + [ms[j]];
      assert From(ms, x)[a] == ms[i] && From(ms, x)[|own|] == ms[j];
    }
  }

  /** A session gets back every message it broadcasts, in order and complete, as soon as its loop is done. */
  lemma OwnMail(ys: seq<System>, es: seq<Event>, k: nat, x: nat)
    requires IsRun(ys, es) && k <= |es| && x in ys[k].sessions
    requires !ys[k].sessions[x].phase.Received? && !ys[k].sessions[x].phase.Sending?
    ensures var s, own := ys[k].sessions[x], From(Delivered(ys[k].sessions[x]), x);
            |own| == |s.inbox| && forall n: nat :: n < |s.inbox| ==> own[n] == Message(x, n, s.inbox[n])
  {
    var y := ys[k];
    RunKeepsAll(ys, es, k);
    forall n: nat | n < |y.sessions[x].inbox|
      ensures Promoted(y.fates, Hop(x, n, x))
    {
      SnapshotSettled(ys, es, k, x, n, x);
    }
    SentAll(y.sessions[x].inbox, y.fates, x, x, |y.sessions[x].inbox|);
  }

  lemma {:induction false} SentAll(inbox: seq<string>, fates: map<Hop, bool>, x: nat, r: nat, n: nat)
    requires n <= |inbox| && forall i: nat :: i < n ==> Promoted(fates, Hop(x, i, r))
    ensures var ms := Sent(inbox, fates, x, r, n);
            |ms| == n && forall i: nat :: i < n ==> ms[i] == Message(x, i, inbox[i])
  {
    if n > 0 {
      SentAll(inbox, fates, x, r, n - 1);
    }
  }

  /** A recipient that is still alive has got, from the first message of a sender it got on, every one: there
      are no gaps. */
  lemma NoGapWhileAlive(ys: seq<System>, es: seq<Event>, k: nat, r: nat, first: Message, n: nat)
    requires IsRun(ys, es) && k <= |es| && r in ys[k].sessions && Alive(ys[k].sessions[r])
    requires first in Delivered(ys[k].sessions[r]) && first.sender in ys[k].sessions && first.number <= n
    requires var s := ys[k].sessions[first.sender]; n < |s.inbox| && !s.phase.Received? && !s.phase.Sending?
    ensures Message(first.sender, n, ys[k].sessions[first.sender].inbox[n]) in Delivered(ys[k].sessions[r])
  {
    var y, x := ys[k], first.sender;
    RunKeepsAll(ys, es, k);
    DeliveredIff(ys, es, k, r, first);
    assert LifeOk(y.channels, r, y.sessions[r]);
    assert Round(x, n) in y.snapshots;
    assert Follows(y, Round(x, first.number), Round(x, n), r);
    SnapshotSettled(ys, es, k, x, n, r);
    DeliveredIff(ys, es, k, r, Message(x, n, y.sessions[x].inbox[n]));
  }

  /** Mail comes from sessions of the recipient's own channel only. */
  lemma SameChannel(ys: seq<System>, es: seq<Event>, k: nat, r: nat, m: Message)
    requires IsRun(ys, es) && k <= |es| && r in ys[k].sessions && m in Delivered(ys[k].sessions[r])
    ensures m.sender in ys[k].sessions && ys[k].sessions[m.sender].channel == ys[k].sessions[r].channel
  {
    RunKeepsAll(ys, es, k);
    DeliveredIff(ys, es, k, r, m);
    SnapOf(ys[k], Round(m.sender, m.number));
  }

  /** The raw pointers a snapshot follows are to sessions that exist. */
  lemma SnapshotReadsLiveMemory(ys: seq<System>, es: seq<Event>, k: nat, c: string, r: nat)
    requires IsRun(ys, es) && k <= |es| && c in ys[k].channels && r in ys[k].channels[c]
    ensures r in ys[k].sessions && ys[k].sessions[r].channel == c && !ys[k].sessions[r].left && !ys[k].sessions[r].freed
  {
    RunKeepsAll(ys, es, k);
    assert LifeOk(ys[k].channels, r, ys[k].sessions[r]);
  }

  function DeliveredTo(y: System, r: nat): seq<Message> { if r in y.sessions then Delivered(y.sessions[r]) else [] }

  predicate Living(y: System, r: nat) {
    r in y.sessions && Alive(y.sessions[r]) && !y.sessions[r].left && !y.sessions[r].freed
  }

  /** A message is posted only to a session that is alive, before and after, and no other step changes what
      has been handed to any session. */
  lemma PostsToTheLivingOnly(ys: seq<System>, es: seq<Event>, k: nat, r: nat)
    requires IsRun(ys, es) && k < |es| && DeliveredTo(ys[k + 1], r) != DeliveredTo(ys[k], r)
    ensures es[k].Post? && Living(ys[k], r) && Living(ys[k + 1], r)
    ensures exists m :: DeliveredTo(ys[k + 1], r) == DeliveredTo(ys[k], r) + [m]
  {
    RunKeepsAll(ys, es, k);
    if !es[k].Post? {
      DeliveryUnchanged(ys[k], es[k], r);
    } else {
      HeldLives(ys[k], es[k].x);
      PostedTo(ys[k], es[k].x, r);
    }
  }

  lemma PostedTo(y: System, x: nat, r: nat)
    requires Enabled(y, Post(x))
    ensures var p, y' := y.sessions[x].phase, Hand(y, x);
            if r != p.held.id then DeliveredTo(y', r) == DeliveredTo(y, r)
            else DeliveredTo(y', r) == DeliveredTo(y, r) + [p.message] && r in y'.sessions && Alive(y'.sessions[r])
                 && y'.sessions[r].left == y.sessions[r].left && y'.sessions[r].freed == y.sessions[r].freed
  {
    if r in y.sessions {
      HandDelivers(y, Hand(y, x), x, r);
    }
  }

  lemma PromotionHandsNothing(y: System, x: nat, q: nat, r: nat)
    requires Enabled(y, Promote(x, q))
    ensures DeliveredTo(Apply(y, Promote(x, q)), r) == DeliveredTo(y, r)
  {
  }

  lemma DeliveryUnchanged(y: System, e: Event, r: nat)
    requires QueuesOk(y) && Enabled(y, e) && !e.Post?
    ensures DeliveredTo(Apply(y, e), r) == DeliveredTo(y, r)
  {
    if e.Promote? {
      PromotionHandsNothing(y, e.x, e.r, r);
    } else if !e.Connect? && !e.Receive? && !e.Snapshot? {
      CalmOwn(y, e);
    }
  }

  /** In every run of all sessions each writer has at most one write outstanding, of the front of its queue,
      and none only if the queue is empty or a write has failed: `OnWrite` always has an element to erase. */
  lemma OneWriteOutstanding(ys: seq<System>, es: seq<Event>, k: nat, x: nat)
    requires IsRun(ys, es) && k <= |es| && x in ys[k].sessions
    ensures var w := ys[k].sessions[x].writer;
            && |w.inFlight| <= 1
            && (w.inFlight != [] <==> w.queue != [] && !w.failed)
            && (w.inFlight != [] ==> w.inFlight[0] == w.queue[0] && forall ok :: Enabled(ys[k], OnWrite(x, ok)))
            && w.completed + w.queue == w.accepted
  {
    RunKeepsAll(ys, es, k);
  }

  /** The loop of `x` has something to do next: post to the session it holds, try another one, or finish. */
  predicate GoesOn(y: System, x: nat, p: Phase)
    requires p.Sending?
  {
    if p.held.Holding? then Living(y, p.held.id) && Enabled(y, Post(x))
    else Enabled(y, Finish(x)) || exists r :: r in p.todo && Enabled(y, Promote(x, r))
  }

  /** A promotion loop only tries sessions that have existed, of its own channel, with the message its
      session received last; what it holds is alive, and it can always go on. */
  lemma LoopsGoOn(ys: seq<System>, es: seq<Event>, k: nat, x: nat)
    requires IsRun(ys, es) && k <= |es| && x in ys[k].sessions && ys[k].sessions[x].phase.Sending?
    ensures LoopOk(ys[k], x, ys[k].sessions[x]) && GoesOn(ys[k], x, ys[k].sessions[x].phase)
  {
    RunKeepsAll(ys, es, k);
    LoopGoesOn(ys[k], x);
  }

  lemma LoopGoesOn(y: System, x: nat)
    requires Inv(y) && x in y.sessions && y.sessions[x].phase.Sending?
    ensures LoopOk(y, x, y.sessions[x]) && GoesOn(y, x, y.sessions[x].phase)
  {
    var p := y.sessions[x].phase;
    if p.held.Holding? {
      HeldLives(y, x);
    } else if p.todo != {} {
      var r :| r in p.todo;
      TargetExists(y, x, r);
    }
  }

  lemma TargetExists(y: System, x: nat, r: nat)
    requires LoopsOk(y) && x in y.sessions && y.sessions[x].phase.Sending?
    requires r in y.sessions[x].phase.todo && y.sessions[x].phase.held == Nobody
    ensures Enabled(y, Promote(x, r))
  {
    assert LoopOk(y, x, y.sessions[x]);
  }

  /** Channels are never given up, so that a reference to one stays valid past the map lock. */
  lemma {:induction false} ChannelsStay(ys: seq<System>, es: seq<Event>, j: nat, k: nat, c: string)
    requires IsRun(ys, es) && j <= k <= |es| && c in ys[j].channels
    ensures c in ys[k].channels
    decreases k - j
  {
    if j < k {
      ChannelsStay(ys, es, j + 1, k, c);
    }
  }

  /** The lookups of a session that got as far as `Add` never fail: not between the two locks, not to
      broadcast, not in the destructor. */
  lemma LookupsSucceed(ys: seq<System>, es: seq<Event>, k: nat, x: nat)
    requires IsRun(ys, es) && k <= |es| && x in ys[k].sessions
    requires !ys[k].sessions[x].phase.Accepting? && !ys[k].sessions[x].phase.Refused?
    ensures forall j :: k <= j <= |es| ==> ys[k].sessions[x].channel in ys[j].channels
    ensures ys[k].sessions[x].phase.Linking? ==> Enabled(ys[k], AddMember(x))
    ensures ys[k].sessions[x].phase.Received? ==> Enabled(ys[k], Snapshot(x))
    ensures !Alive(ys[k].sessions[x]) && !ys[k].sessions[x].left ==> Enabled(ys[k], Leave(x))
  {
    RunKeepsAll(ys, es, k);
    assert LifeOk(ys[k].channels, x, ys[k].sessions[x]);
    forall j | k <= j <= |es|
      ensures ys[k].sessions[x].channel in ys[j].channels
    {
      ChannelsStay(ys, es, k, j, ys[k].sessions[x].channel);
    }
  }

  /** Step `j` is the part of `Add` that looks up the channel `c` and creates it if it is not there. */
  ghost predicate AddsChannelAt(ys: seq<System>, es: seq<Event>, j: int, c: string)
    requires IsRun(ys, es)
  {
    0 <= j < |es| && es[j].AddChannel? && es[j].x in ys[j].sessions && ys[j].sessions[es[j].x].channel == c
  }

  /** A channel exists exactly if some session has been added to it. */
  lemma {:induction false} ChannelExistsIff(ys: seq<System>, es: seq<Event>, k: nat, c: string)
    requires IsRun(ys, es) && k <= |es|
    ensures c in ys[k].channels <==> exists j :: 0 <= j < k && AddsChannelAt(ys, es, j, c)
  {
    if k > 0 {
      ChannelExistsIff(ys, es, k - 1, c);
      ChannelStep(ys[k - 1], es[k - 1], c);
      assert AddsChannelAt(ys, es, k - 1, c) ==> c in ys[k].channels;
    }
  }

  lemma ChannelStep(y: System, e: Event, c: string)
    requires Enabled(y, e)
    ensures c in Apply(y, e).channels <==>
            c in y.channels || (e.AddChannel? && y.sessions[e.x].channel == c)
  {
  }

  /** The destructor of a session that is dead and not yet removed finds its channel in every run, but for
      one case: the handshake of the session failed, and no session has ever been added to that channel. */
  lemma DestructorLookupFailsIff(ys: seq<System>, es: seq<Event>, k: nat, x: nat)
    requires IsRun(ys, es) && k <= |es| && x in ys[k].sessions
    requires !Alive(ys[k].sessions[x]) && !ys[k].sessions[x].left
    ensures !Enabled(ys[k], Leave(x)) <==>
            && ys[k].sessions[x].phase.Refused?
            && !exists j :: 0 <= j < k && AddsChannelAt(ys, es, j, ys[k].sessions[x].channel)
  {
    RunKeepsAll(ys, es, k);
    assert LifeOk(ys[k].channels, x, ys[k].sessions[x]);
    ChannelExistsIff(ys, es, k, ys[k].sessions[x].channel);
  }

  /** The case happens: with a single session whose handshake fails. */
  lemma RefusedLookupFails(x: nat, c: string) returns (ys: seq<System>, es: seq<Event>)
    ensures IsRun(ys, es) && |es| == 2
    ensures x in ys[2].sessions && ys[2].sessions[x].channel == c
    ensures !Alive(ys[2].sessions[x]) && !ys[2].sessions[x].left && c !in ys[2].channels && !Enabled(ys[2], Leave(x))
  {
    var y0 := System(map[], map[], map[], map[]);
    es := [Connect(x, c), Refuse(x)];
    var y1 := Apply(y0, es[0]);
    ys := [y0, y1, Apply(y1, es[1])];
  }

  // --- failed writes ----------------------------------------------------------------------------

  /** A write of `x` has failed, and what it had written before is `done`. */
  predicate Broken(y: System, x: nat, done: seq<Message>) {
    x in y.sessions && y.sessions[x].writer.failed && y.sessions[x].writer.completed == done
  }

  /** Only the two handlers of the queue touch a session's writer. */
  lemma WriterUntouched(y: System, e: Event, x: nat)
    requires Enabled(y, e) && x in y.sessions && !((e.OnBroadcast? || e.OnWrite?) && e.x == x)
    ensures x in Apply(y, e).sessions && Apply(y, e).sessions[x].writer == y.sessions[x].writer
  {
  }

  lemma BrokenStays(y: System, e: Event, x: nat, done: seq<Message>)
    requires QueuesOk(y) && Enabled(y, e) && Broken(y, x, done)
    ensures Broken(Apply(y, e), x, done)
  {
    if !((e.OnBroadcast? || e.OnWrite?) && e.x == x) {
      WriterUntouched(y, e, x);
    }
  }

  lemma {:induction false} BrokenForEver(ys: seq<System>, es: seq<Event>, k: nat, j: nat, x: nat, done: seq<Message>)
    requires IsRun(ys, es) && k <= j <= |es| && Broken(ys[k], x, done)
    ensures Broken(ys[j], x, done)
    decreases j - k
  {
    if k < j {
      RunKeepsAll(ys, es, k);
      BrokenStays(ys[k], es[k], x, done);
      BrokenForEver(ys, es, k + 1, j, x, done);
    }
  }

  /** After a failed write of a session of a run it never completes or starts another, whatever it is still
      handed. */
  lemma FailedWriteIsLastInRun(ys: seq<System>, es: seq<Event>, k: nat, j: nat, x: nat)
    requires IsRun(ys, es) && k < j <= |es| && es[k] == OnWrite(x, false)
    ensures x in ys[k].sessions && x in ys[j].sessions
    ensures ys[j].sessions[x].writer.completed == ys[k].sessions[x].writer.completed
    ensures ys[j].sessions[x].writer.inFlight == [] && forall ok :: !Enabled(ys[j], OnWrite(x, ok))
  {
    RunKeepsAll(ys, es, k);
    RunKeepsAll(ys, es, j);
    assert ys[k + 1] == Apply(ys[k], es[k]);
    FailsNow(ys[k], x);
    BrokenForEver(ys, es, k + 1, j, x, ys[k].sessions[x].writer.completed);
  }

  lemma FailsNow(y: System, x: nat)
    requires QueuesOk(y) && Enabled(y, OnWrite(x, false))
    ensures Broken(Apply(y, OnWrite(x, false)), x, y.sessions[x].writer.completed)
  {
  }

  /** A successful write of a session of a run completes the front of its queue. */
  lemma WrittenCompletesFrontInRun(ys: seq<System>, es: seq<Event>, k: nat, x: nat)
    requires IsRun(ys, es) && k < |es| && es[k] == OnWrite(x, true)
    ensures x in ys[k].sessions && x in ys[k + 1].sessions
    ensures var w, w' := ys[k].sessions[x].writer, ys[k + 1].sessions[x].writer;
            w.queue != [] && w'.completed == w.completed + [w.queue[0]] && w'.queue == w.queue[1..]
  {
    RunKeepsAll(ys, es, k);
    assert ys[k + 1] == Apply(ys[k], es[k]);
  }
}
