/** The many-session system: sessions connect, join their channel in two locked steps, receive, take a
    snapshot of the members, promote them one by one and post to their strands, while the write queues
    drain and sessions lose their last reference, leave their channel and are freed. */
module Fanout {
  import opened WriteQueue
  import opened GlobalWebsocketState

  /** What the connect and read handlers of a session are doing. `Linking` is between the two locks of
      `Add`, `Received` inside `OnRecieve` before the snapshot, `Sending` in the promotion loop with the
      recipients still to come and the one held by a strong pointer. `Closed` and `Refused` have no such
      handler left; `Refused` never got to `Add`. */
  datatype Phase =
    | Accepting | Linking | Reading | Received
    | Sending(message: Message, todo: set<nat>, held: Held)
    | Closed | Refused

  datatype Held = Nobody | Holding(id: nat)

  /** `posted` is the strand, `pins` the sessions whose promotion loop holds a strong pointer to this one,
      `inbox` all payloads received so far. `left` says that `Remove` has erased the session, `freed` that
      its memory is gone. */
  datatype Session = Session(channel: string, phase: Phase, buffer: string, inbox: seq<string>, posted: seq<Message>,
                             writer: Writer, pins: set<nat>, left: bool, freed: bool)

  datatype Round = Round(sender: nat, number: nat)

  datatype Hop = Hop(sender: nat, number: nat, recipient: nat)

  /** `snapshots` and `fates` only record: the members each broadcast found, and for each of them that has
      been tried whether its promotion succeeded. */
  datatype System = System(sessions: map<nat, Session>, channels: Channels,
                           snapshots: map<Round, set<nat>>, fates: map<Hop, bool>)

  datatype Event =
    | Connect(x: nat, channel: string)
    | Refuse(x: nat)
    | AddChannel(x: nat)
    | AddMember(x: nat)
    | Receive(x: nat, payload: string)
    | StopReading(x: nat)
    | Snapshot(x: nat)
    | Promote(x: nat, r: nat)
    | Post(x: nat)
    | Finish(x: nat)
    | OnBroadcast(x: nat)
    | OnWrite(x: nat, ok: bool)
    | Leave(x: nat)
    | Free(x: nat)

  /** Some handler, pending or running, or some promotion loop holds a strong pointer. */
  predicate Alive(s: Session) {
    (s.phase != Closed && s.phase != Refused) || s.posted != [] || s.writer.inFlight != [] || s.pins != {}
  }

  function Newborn(channel: string): Session { Session(channel, Accepting, "", [], [], Idle, {}, false, false) }

  ghost predicate Initial(y: System) {
    y == System(map[], map[], map[], map[])
  }

  function In(y: System, x: nat): Session
    requires x in y.sessions
  {
    y.sessions[x]
  }

  function Set(y: System, x: nat, s: Session): System { y.(sessions := y.sessions[x := s]) }

  predicate Enabled(y: System, e: Event) {
    if e.Connect? then e.x !in y.sessions
    else
      e.x in y.sessions &&
      var s := y.sessions[e.x];
      match e
      case Refuse(_) => s.phase == Accepting
      case AddChannel(_) => s.phase == Accepting
      case AddMember(_) => s.phase == Linking && s.channel in y.channels
      case Receive(_, _) => s.phase == Reading
      case StopReading(_) => s.phase == Reading
      case Snapshot(_) => s.phase == Received && s.channel in y.channels && s.inbox != []
      case Promote(_, r) => s.phase.Sending? && s.phase.held == Nobody && r in s.phase.todo && r in y.sessions
      case Post(_) => s.phase.Sending? && s.phase.held.Holding? && s.phase.held.id in y.sessions
      case Finish(_) => s.phase.Sending? && s.phase.todo == {} && s.phase.held == Nobody
      case OnBroadcast(_) => s.posted != []
      case OnWrite(_, _) => s.writer.inFlight != [] && s.writer.queue != []
      case Leave(_) => !Alive(s) && !s.left && s.channel in y.channels
      case Free(_) => s.left && !s.freed
      case Connect(_, _) => false
  }

  /** A strong pointer to `r` for the loop of `x`. */
  function Pin(y: System, x: nat, r: nat): System
    requires x in y.sessions && r in y.sessions && In(y, x).phase.Sending?
  {
    var y1 := Set(y, r, In(y, r).(pins := In(y, r).pins + {x}));
    Set(y1, x, In(y1, x).(phase := In(y, x).phase.(held := Holding(r))))
  }

  /** The promotion of `r` fails. */
  function Skip(y: System, x: nat, r: nat): System
    requires x in y.sessions && In(y, x).phase.Sending?
  {
    var p := In(y, x).phase;
    Set(y, x, In(y, x).(phase := p.(todo := p.todo - {r}))).(fates := y.fates[Hop(x, p.message.number, r) := false])
  }

  /** The held session gets the message on its strand and is let go. */
  function Hand(y: System, x: nat): System
    requires x in y.sessions && In(y, x).phase.Sending? && In(y, x).phase.held.Holding?
    requires In(y, x).phase.held.id in y.sessions
  {
    var p := In(y, x).phase;
    var r := p.held.id;
    var y1 := Set(y, r, In(y, r).(posted := In(y, r).posted + [p.message], pins := In(y, r).pins - {x}));
    Set(y1, x, In(y1, x).(phase := p.(todo := p.todo - {r}, held := Nobody)))
      .(fates := y.fates[Hop(x, p.message.number, r) := true])
  }

  function Apply(y: System, e: Event): System
    requires Enabled(y, e)
  {
    match e
    case Connect(x, c) => Set(y, x, Newborn(c))
    case Refuse(x) => Set(y, x, In(y, x).(phase := Refused))
    case AddChannel(x) => Set(y, x, In(y, x).(phase := Linking)).(channels := WithChannel(y.channels, In(y, x).channel))
    case AddMember(x) =>
      Set(y, x, In(y, x).(phase := Reading)).(channels := WithMember(y.channels, In(y, x).channel, x))
    case Receive(x, p) =>
      Set(y, x, In(y, x).(phase := Received, buffer := In(y, x).buffer + p, inbox := In(y, x).inbox + [p]))
    case StopReading(x) => Set(y, x, In(y, x).(phase := Closed))
    case Snapshot(x) =>
      var s := In(y, x);
      var n, members := |s.inbox| - 1, y.channels[s.channel];
      Set(y, x, s.(phase := Sending(Message(x, n, s.buffer), members, Nobody)))
        .(snapshots := y.snapshots[Round(x, n) := members])
    case Promote(x, r) => if Alive(In(y, r)) then Pin(y, x, r) else Skip(y, x, r)
    case Post(x) => Hand(y, x)
    case Finish(x) => Set(y, x, In(y, x).(phase := Reading, buffer := ""))
    case OnBroadcast(x) =>
      var s := In(y, x);
      Set(y, x, s.(posted := s.posted[1..], writer := Accept(s.writer, s.posted[0])))
    case OnWrite(x, ok) => Set(y, x, In(y, x).(writer := Complete(In(y, x).writer, ok)))
    case Leave(x) => Set(y, x, In(y, x).(left := true)).(channels := WithoutMember(y.channels, In(y, x).channel, x))
    case Free(x) => Set(y, x, In(y, x).(freed := true))
  }

  // --- the invariant ------------------------------------------------------------------------

  /** All that was ever handed to a session: written, queued, and still on its strand. */
  function Delivered(s: Session): (ms: seq<Message>) { s.writer.completed + s.writer.queue + s.posted }

  /** The session went through `Add`. */
  predicate Joined(s: Session) { s.phase.Reading? || s.phase.Received? || s.phase.Sending? || s.phase.Closed? }

  function HeldOf(s: Session): Held { if s.phase.Sending? then s.phase.held else Nobody }

  /** One session, its channel and its life. */
  predicate LifeOk(cs: Channels, x: nat, s: Session) {
    && (!s.phase.Accepting? && !s.phase.Refused? ==> s.channel in cs)
    && (Joined(s) && !s.left ==> s.channel in cs && x in cs[s.channel])
    && (s.left ==> !Alive(s)) && (s.freed ==> s.left)
    && (s.phase.Accepting? || s.phase.Linking? || s.phase.Reading? ==> s.buffer == "")
    && (s.phase.Received? ==> s.inbox != [] && s.buffer == s.inbox[|s.inbox| - 1])
  }

  /** The loop of a sender, while it runs. */
  predicate LoopOk(y: System, x: nat, s: Session) {
    s.phase.Sending? ==>
      && s.inbox != [] && s.phase.message == Message(x, |s.inbox| - 1, s.inbox[|s.inbox| - 1])
      && (forall r :: r in s.phase.todo ==> r in y.sessions && y.sessions[r].channel == s.channel)
      && (s.phase.held.Holding? ==> s.phase.held.id in s.phase.todo)
  }

  ghost predicate QueuesOk(y: System) { forall x :: x in y.sessions ==> Ordered(y.sessions[x].writer) }

  ghost predicate LivesOk(y: System) { forall x :: x in y.sessions ==> LifeOk(y.channels, x, y.sessions[x]) }

  ghost predicate LoopsOk(y: System) { forall x :: x in y.sessions ==> LoopOk(y, x, y.sessions[x]) }

  /** Every member of a channel is there: of that channel, joined, not removed and so not freed. */
  ghost predicate MembersOk(y: System) {
    forall c, r :: c in y.channels && r in y.channels[c] ==>
      r in y.sessions && y.sessions[r].channel == c && Joined(y.sessions[r]) && !y.sessions[r].left
  }

  /** A strong pointer in a loop is a pin on the session it points to, and the other way round. */
  ghost predicate PinsOk(y: System) {
    && (forall x :: x in y.sessions && HeldOf(y.sessions[x]).Holding? ==>
          HeldOf(y.sessions[x]).id in y.sessions && x in y.sessions[HeldOf(y.sessions[x]).id].pins)
    && (forall x, r :: r in y.sessions && x in y.sessions[r].pins ==>
          x in y.sessions && HeldOf(y.sessions[x]) == Holding(r))
  }

  ghost predicate Inv(y: System) { QueuesOk(y) && LivesOk(y) && LoopsOk(y) && MembersOk(y) && PinsOk(y) }

  /** Nothing but session `x` differs in the sessions. */
  ghost predicate Others(y: System, y': System, x: nat) {
    && x in y'.sessions
    && (forall z :: z in y'.sessions <==> z in y.sessions || z == x)
    && (forall z :: z in y.sessions && z != x ==> y'.sessions[z] == y.sessions[z])
  }

  lemma QueuesFrame(y: System, y': System, x: nat)
    requires QueuesOk(y) && Others(y, y', x) && Ordered(y'.sessions[x].writer)
    ensures QueuesOk(y')
  {
  }

  lemma LivesFrame(y: System, y': System, x: nat)
    requires LivesOk(y) && Others(y, y', x) && LifeOk(y'.channels, x, y'.sessions[x])
    requires forall c :: c in y.channels ==>
               c in y'.channels && forall z :: z in y.channels[c] && z != x ==> z in y'.channels[c]
    ensures LivesOk(y')
  {
  }

  lemma LoopsFrame(y: System, y': System, x: nat)
    requires LoopsOk(y) && Others(y, y', x) && LoopOk(y', x, y'.sessions[x])
    requires x in y.sessions ==> y'.sessions[x].channel == y.sessions[x].channel
    ensures LoopsOk(y')
  {
    forall z | z in y'.sessions && z != x
      ensures LoopOk(y', z, y'.sessions[z])
    {
      assert LoopOk(y, z, y.sessions[z]);
    }
  }

  lemma MembersFrame(y: System, y': System, x: nat)
    requires MembersOk(y) && Others(y, y', x)
    requires forall c, z :: c in y'.channels && z in y'.channels[c] && z != x ==> c in y.channels && z in y.channels[c]
    requires forall c :: c in y'.channels && x in y'.channels[c] ==>
               y'.sessions[x].channel == c && Joined(y'.sessions[x]) && !y'.sessions[x].left
    ensures MembersOk(y')
  {
  }

  lemma PinsFrame(y: System, y': System, x: nat)
    requires PinsOk(y) && Others(y, y', x)
    requires if x in y.sessions
             then y'.sessions[x].pins == y.sessions[x].pins && HeldOf(y'.sessions[x]) == HeldOf(y.sessions[x])
             else y'.sessions[x].pins == {} && HeldOf(y'.sessions[x]) == Nobody
    ensures PinsOk(y')
  {
    forall z | z in y'.sessions && HeldOf(y'.sessions[z]).Holding?
      ensures HeldOf(y'.sessions[z]).id in y'.sessions && z in y'.sessions[HeldOf(y'.sessions[z]).id].pins
    {
      assert z in y.sessions && HeldOf(y.sessions[z]) == HeldOf(y'.sessions[z]);
    }
    forall z, r | r in y'.sessions && z in y'.sessions[r].pins
      ensures z in y'.sessions && HeldOf(y'.sessions[z]) == Holding(r)
    {
      assert r in y.sessions && z in y.sessions[r].pins;
    }
  }

  /** What the invariant says of one session by itself. */
  ghost predicate SessionOk(y: System, x: nat) {
    && x in y.sessions && Ordered(y.sessions[x].writer)
    && LifeOk(y.channels, x, y.sessions[x]) && LoopOk(y, x, y.sessions[x])
  }

  /** A step of one session that changes no membership and no strong pointer. */
  ghost predicate Local(y: System, y': System, x: nat) {
    && x in y.sessions && Others(y, y', x) && y'.channels == y.channels && SessionOk(y', x)
    && var s, s' := y.sessions[x], y'.sessions[x];
       && s'.channel == s.channel && s'.pins == s.pins && HeldOf(s') == HeldOf(s)
       && (Joined(s) && !s.left ==> Joined(s') && !s'.left)
  }

  lemma LocalStep(y: System, y': System, x: nat)
    requires Inv(y) && Local(y, y', x)
    ensures Inv(y')
  {
    QueuesFrame(y, y', x);
    LivesFrame(y, y', x);
    LoopsFrame(y, y', x);
    MembersFrame(y, y', x);
    PinsFrame(y, y', x);
  }

  lemma ReaderLocal(y: System, e: Event)
    requires Enabled(y, e) && (e.Refuse? || e.StopReading? || e.Finish?) && SessionOk(y, e.x)
    ensures Local(y, Apply(y, e), e.x)
  {
  }

  lemma ReceiveLocal(y: System, x: nat, p: string)
    requires Enabled(y, Receive(x, p)) && SessionOk(y, x)
    ensures Local(y, Apply(y, Receive(x, p)), x)
  {
  }

  lemma SnapshotLocal(y: System, x: nat)
    requires Enabled(y, Snapshot(x)) && SessionOk(y, x) && MembersOk(y)
    ensures Local(y, Apply(y, Snapshot(x)), x)
  {
  }

  lemma OnBroadcastLocal(y: System, x: nat)
    requires Enabled(y, OnBroadcast(x)) && SessionOk(y, x)
    ensures Local(y, Apply(y, OnBroadcast(x)), x)
  {
    AcceptOrdered(y.sessions[x].writer, y.sessions[x].posted[0]);
  }

  lemma OnWriteLocal(y: System, x: nat, ok: bool)
    requires Enabled(y, OnWrite(x, ok)) && SessionOk(y, x)
    ensures Local(y, Apply(y, OnWrite(x, ok)), x)
  {
    CompleteOrdered(y.sessions[x].writer, ok);
  }

  lemma FreeLocal(y: System, x: nat)
    requires Enabled(y, Free(x)) && SessionOk(y, x)
    ensures Local(y, Apply(y, Free(x)), x)
  {
  }

  lemma SkipLocal(y: System, x: nat, r: nat)
    requires Enabled(y, Promote(x, r)) && SessionOk(y, x)
    ensures Local(y, Skip(y, x, r), x)
  {
  }

  lemma ConnectKeepsInv(y: System, x: nat, c: string)
    requires Inv(y) && Enabled(y, Connect(x, c))
    ensures Inv(Apply(y, Connect(x, c)))
  {
    var y' := Apply(y, Connect(x, c));
    QueuesFrame(y, y', x);
    LivesFrame(y, y', x);
    LoopsFrame(y, y', x);
    MembersFrame(y, y', x);
    PinsFrame(y, y', x);
  }

  /** A step of one session that is not in its promotion loop and changes only its phase and its memberships. */
  lemma QuietStep(y: System, y': System, x: nat)
    requires QueuesOk(y) && LoopsOk(y) && PinsOk(y) && x in y.sessions && Others(y, y', x)
    requires var s, s' := y.sessions[x], y'.sessions[x];
             && s'.writer == s.writer && s'.channel == s.channel && s'.pins == s.pins
             && !s'.phase.Sending? && !s.phase.Sending?
    ensures QueuesOk(y') && LoopsOk(y') && PinsOk(y')
  {
    QueuesFrame(y, y', x);
    LoopsFrame(y, y', x);
    PinsFrame(y, y', x);
  }

  lemma AddChannelLives(y: System, x: nat)
    requires LivesOk(y) && MembersOk(y) && Enabled(y, AddChannel(x))
    ensures LivesOk(Apply(y, AddChannel(x))) && MembersOk(Apply(y, AddChannel(x)))
  {
    var y' := Apply(y, AddChannel(x));
    assert LifeOk(y.channels, x, y.sessions[x]);
    LivesFrame(y, y', x);
    MembersFrame(y, y', x);
  }

  lemma AddMemberLives(y: System, x: nat)
    requires LivesOk(y) && Enabled(y, AddMember(x))
    ensures LivesOk(Apply(y, AddMember(x)))
  {
    assert LifeOk(y.channels, x, y.sessions[x]);
    LivesFrame(y, Apply(y, AddMember(x)), x);
  }

  lemma AddMemberMembers(y: System, x: nat)
    requires LivesOk(y) && MembersOk(y) && Enabled(y, AddMember(x))
    ensures MembersOk(Apply(y, AddMember(x)))
  {
    assert LifeOk(y.channels, x, y.sessions[x]);
    MembersFrame(y, Apply(y, AddMember(x)), x);
  }

  lemma LeaveLives(y: System, x: nat)
    requires LivesOk(y) && Enabled(y, Leave(x))
    ensures LivesOk(Apply(y, Leave(x)))
  {
    assert LifeOk(y.channels, x, y.sessions[x]);
    LivesFrame(y, Apply(y, Leave(x)), x);
  }

  lemma LeaveMembers(y: System, x: nat)
    requires MembersOk(y) && Enabled(y, Leave(x))
    ensures MembersOk(Apply(y, Leave(x)))
  {
    MembersFrame(y, Apply(y, Leave(x)), x);
  }

  lemma MembershipKeepsInv(y: System, e: Event)
    requires Inv(y) && Enabled(y, e) && (e.AddChannel? || e.AddMember? || e.Leave?)
    ensures Inv(Apply(y, e))
  {
    QuietStep(y, Apply(y, e), e.x);
    if e.AddChannel? {
      AddChannelLives(y, e.x);
    } else if e.AddMember? {
      AddMemberLives(y, e.x);
      AddMemberMembers(y, e.x);
    } else {
      LeaveLives(y, e.x);
      LeaveMembers(y, e.x);
    }
  }

  /** The two changes of a promotion or a post: `r` first, then the sender `x`, which may be `r` itself. */
  ghost predicate Pair(y: System, y1: System, y': System, x: nat, r: nat) {
    && x in y.sessions && r in y.sessions
    && Others(y, y1, r) && Others(y1, y', x) && y1.channels == y.channels == y'.channels
    && (var s, s' := y.sessions[r], y1.sessions[r];
        s'.writer == s.writer && s'.phase == s.phase && s'.inbox == s.inbox && s'.buffer == s.buffer
        && s'.channel == s.channel && s'.left == s.left && s'.freed == s.freed && !s.left)
    && (var s, s' := y1.sessions[x], y'.sessions[x];
        s'.writer == s.writer && s'.channel == s.channel && s'.inbox == s.inbox
        && s'.left == s.left && s'.freed == s.freed
        && s'.pins == s.pins && s'.posted == s.posted && s.phase.Sending? && s'.phase.Sending?)
  }

  /** The loop has no more to do than before. */
  predicate Narrows(p: Phase, p': Phase) {
    && p.Sending? && p'.Sending? && p'.message == p.message && p'.todo <= p.todo
    && (p'.held.Holding? ==> p'.held.id in p'.todo)
  }

  lemma PairQueues(y: System, y1: System, y': System, x: nat, r: nat)
    requires QueuesOk(y) && Pair(y, y1, y', x, r)
    ensures QueuesOk(y')
  {
    QueuesFrame(y, y1, r);
    QueuesFrame(y1, y', x);
  }

  lemma PairLives(y: System, y1: System, y': System, x: nat, r: nat)
    requires LivesOk(y) && Pair(y, y1, y', x, r)
    ensures LivesOk(y')
  {
    assert LifeOk(y.channels, r, y.sessions[r]);
    LivesFrame(y, y1, r);
    assert LifeOk(y1.channels, x, y1.sessions[x]);
    LivesFrame(y1, y', x);
  }

  lemma PairMembers(y: System, y1: System, y': System, x: nat, r: nat)
    requires MembersOk(y) && Pair(y, y1, y', x, r)
    ensures MembersOk(y')
  {
    MembersFrame(y, y1, r);
    MembersFrame(y1, y', x);
  }

  lemma PairLoops(y: System, y1: System, y': System, x: nat, r: nat)
    requires LoopsOk(y) && Pair(y, y1, y', x, r)
    requires Narrows(y1.sessions[x].phase, y'.sessions[x].phase)
    ensures LoopsOk(y')
  {
    assert LoopOk(y, r, y.sessions[r]);
    assert LoopOk(y1, r, y1.sessions[r]);
    LoopsFrame(y, y1, r);
    assert LoopOk(y1, x, y1.sessions[x]);
    assert LoopOk(y', x, y'.sessions[x]);
    LoopsFrame(y1, y', x);
  }

  /** What the two changes mean for the strong pointers. */
  lemma PinPins(y: System, y': System, x: nat, r: nat)
    requires PinsOk(y) && Enabled(y, Promote(x, r)) && y' == Pin(y, x, r)
    ensures PinsOk(y')
  {
    PinHeld(y, y', x, r);
    forall z, q | q in y'.sessions && z in y'.sessions[q].pins
      ensures z in y'.sessions && HeldOf(y'.sessions[z]) == Holding(q)
    {
      if z != x || q != r {
        assert z in y.sessions[q].pins;
      }
    }
  }

  lemma PinHeld(y: System, y': System, x: nat, r: nat)
    requires PinsOk(y) && Enabled(y, Promote(x, r)) && y' == Pin(y, x, r)
    ensures forall z :: z in y'.sessions && HeldOf(y'.sessions[z]).Holding? ==>
              HeldOf(y'.sessions[z]).id in y'.sessions && z in y'.sessions[HeldOf(y'.sessions[z]).id].pins
  {
    forall z | z in y'.sessions && HeldOf(y'.sessions[z]).Holding?
      ensures HeldOf(y'.sessions[z]).id in y'.sessions && z in y'.sessions[HeldOf(y'.sessions[z]).id].pins
    {
      if z != x {
        assert HeldOf(y'.sessions[z]) == HeldOf(y.sessions[z]);
      }
    }
  }

  lemma PinKeepsInv(y: System, x: nat, r: nat)
    requires Inv(y) && Enabled(y, Promote(x, r)) && Alive(In(y, r))
    ensures Inv(Pin(y, x, r))
  {
    assert LifeOk(y.channels, r, y.sessions[r]);
    var y1 := PinPair(y, x, r);
    PairKeepsInv(y, y1, Pin(y, x, r), x, r);
    PinPins(y, Pin(y, x, r), x, r);
  }

  lemma PinPair(y: System, x: nat, r: nat) returns (y1: System)
    requires LoopsOk(y) && Enabled(y, Promote(x, r)) && !In(y, r).left
    ensures Pair(y, y1, Pin(y, x, r), x, r)
    ensures Narrows(y1.sessions[x].phase, Pin(y, x, r).sessions[x].phase)
  {
    y1 := Set(y, r, In(y, r).(pins := In(y, r).pins + {x}));
  }

  lemma PairKeepsInv(y: System, y1: System, y': System, x: nat, r: nat)
    requires QueuesOk(y) && LivesOk(y) && LoopsOk(y) && MembersOk(y) && Pair(y, y1, y', x, r)
    requires Narrows(y1.sessions[x].phase, y'.sessions[x].phase)
    ensures QueuesOk(y') && LivesOk(y') && LoopsOk(y') && MembersOk(y')
  {
    PairQueues(y, y1, y', x, r);
    PairLives(y, y1, y', x, r);
    PairLoops(y, y1, y', x, r);
    PairMembers(y, y1, y', x, r);
  }

  lemma HandHeld(y: System, y': System, x: nat)
    requires PinsOk(y) && Enabled(y, Post(x)) && y' == Hand(y, x)
    ensures forall z :: z in y'.sessions && HeldOf(y'.sessions[z]).Holding? ==>
              HeldOf(y'.sessions[z]).id in y'.sessions && z in y'.sessions[HeldOf(y'.sessions[z]).id].pins
  {
    forall z | z in y'.sessions && HeldOf(y'.sessions[z]).Holding?
      ensures HeldOf(y'.sessions[z]).id in y'.sessions && z in y'.sessions[HeldOf(y'.sessions[z]).id].pins
    {
      assert HeldOf(y'.sessions[z]) == HeldOf(y.sessions[z]);
    }
  }

  lemma HandPins(y: System, y': System, x: nat)
    requires PinsOk(y) && Enabled(y, Post(x)) && y' == Hand(y, x)
    ensures PinsOk(y')
  {
    HandHeld(y, y', x);
    forall z, q | q in y'.sessions && z in y'.sessions[q].pins
      ensures z in y'.sessions && HeldOf(y'.sessions[z]) == Holding(q)
    {
      assert z in y.sessions[q].pins;
    }
  }

  lemma HandKeepsInv(y: System, x: nat)
    requires Inv(y) && Enabled(y, Post(x))
    ensures Inv(Hand(y, x))
  {
    HeldLives(y, x);
    var y1 := HandPair(y, x);
    PairKeepsInv(y, y1, Hand(y, x), x, In(y, x).phase.held.id);
    HandPins(y, Hand(y, x), x);
  }

  lemma HandPair(y: System, x: nat) returns (y1: System)
    requires LoopsOk(y) && Enabled(y, Post(x)) && !In(y, In(y, x).phase.held.id).left
    ensures Pair(y, y1, Hand(y, x), x, In(y, x).phase.held.id)
    ensures Narrows(y1.sessions[x].phase, Hand(y, x).sessions[x].phase)
  {
    var p := In(y, x).phase;
    var r := p.held.id;
    y1 := Set(y, r, In(y, r).(posted := In(y, r).posted + [p.message], pins := In(y, r).pins - {x}));
  }

  /** What a loop holds is alive: the strong pointer is one of its references. */
  lemma HeldLives(y: System, x: nat)
    requires Inv(y) && x in y.sessions && HeldOf(y.sessions[x]).Holding?
    ensures var r := HeldOf(y.sessions[x]).id;
            r in y.sessions && Alive(y.sessions[r]) && !y.sessions[r].left && !y.sessions[r].freed
  {
    var r := HeldOf(y.sessions[x]).id;
    assert x in y.sessions[r].pins;
    assert LifeOk(y.channels, r, y.sessions[r]);
  }

  /** The steps of one session alone. */
  predicate Lone(e: Event) {
    !e.Connect? && !e.AddChannel? && !e.AddMember? && !e.Leave? && !e.Promote? && !e.Post?
  }

  lemma LoneLocal(y: System, e: Event)
    requires Enabled(y, e) && Lone(e) && SessionOk(y, e.x) && MembersOk(y)
    ensures Local(y, Apply(y, e), e.x)
  {
    match e
    case Receive(x, p) => ReceiveLocal(y, x, p);
    case Snapshot(x) => SnapshotLocal(y, x);
    case OnBroadcast(x) => OnBroadcastLocal(y, x);
    case OnWrite(x, ok) => OnWriteLocal(y, x, ok);
    case Free(x) => FreeLocal(y, x);
    case _ => ReaderLocal(y, e);
  }

  lemma PromoteKeepsInv(y: System, x: nat, r: nat)
    requires Inv(y) && Enabled(y, Promote(x, r))
    ensures Inv(Apply(y, Promote(x, r)))
  {
    if Alive(In(y, r)) {
      PinKeepsInv(y, x, r);
    } else {
      SkipLocal(y, x, r);
      LocalStep(y, Skip(y, x, r), x);
    }
  }

  lemma StepKeepsInv(y: System, e: Event)
    requires Inv(y) && Enabled(y, e)
    ensures Inv(Apply(y, e))
  {
    if Lone(e) {
      LoneLocal(y, e);
      LocalStep(y, Apply(y, e), e.x);
    } else if e.Connect? {
      ConnectKeepsInv(y, e.x, e.channel);
    } else if e.Promote? {
      PromoteKeepsInv(y, e.x, e.r);
    } else if e.Post? {
      HandKeepsInv(y, e.x);
    } else {
      MembershipKeepsInv(y, e);
    }
  }
}
