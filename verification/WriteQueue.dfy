/** The write queue of one `WebsocketHandler`: `OnBroadcast` and `OnWrite`, in any interleaving. */
module WriteQueue {

  /** A broadcast message: who received it from its client, as which of its messages, and what it says. */
  datatype Message = Message(sender: nat, number: nat, payload: string)

  /** The queue and what is known about it: the writes that have been started and not yet completed,
      whether one has failed, the messages written, and all messages ever put into the queue. */
  datatype Writer = Writer(queue: seq<Message>, inFlight: seq<Message>, failed: bool,
                           completed: seq<Message>, accepted: seq<Message>)

  const Idle := Writer([], [], false, [], [])

  function Accept(w: Writer, m: Message): (w': Writer) {
    var queue := w.queue + [m];
    w.(queue := queue,
       inFlight := if |queue| > 1 then w.inFlight else w.inFlight + [queue[0]],
       accepted := w.accepted + [m])
  }

  function Complete(w: Writer, ok: bool): (w': Writer)
    requires w.inFlight != [] && w.queue != []
  {
    var inFlight := w.inFlight[1..];
    if !ok then w.(inFlight := inFlight, failed := true)
    else
      var queue := w.queue[1..];
      w.(queue := queue,
         inFlight := if queue != [] then inFlight + [queue[0]] else inFlight,
         completed := w.completed + [w.inFlight[0]])
  }

  /** At most one write is outstanding and it is of the front of the queue; a queue that is not empty
      always has one until a write fails; what was written and what is queued is what was accepted. */
  predicate Ordered(w: Writer) {
    && w.inFlight == (if w.queue != [] && !w.failed then [w.queue[0]] else [])
    && (w.failed ==> w.queue != [])
    && w.completed + w.queue == w.accepted
  }

  lemma AcceptOrdered(w: Writer, m: Message)
    requires Ordered(w)
    ensures Ordered(Accept(w, m))
    ensures Accept(w, m).completed + Accept(w, m).queue == w.completed + w.queue + [m]
  {
  }

  lemma CompleteOrdered(w: Writer, ok: bool)
    requires Ordered(w) && w.inFlight != []
    ensures Ordered(Complete(w, ok))
    ensures Complete(w, ok).completed + Complete(w, ok).queue == w.completed + w.queue
  {
    assert w.queue == [w.queue[0]] + w.queue[1..];
  }

  // --- every interleaving -------------------------------------------------------------------

  /** `Written` may only happen while a write is outstanding. */
  datatype Op = Broadcast(message: Message) | Written(ok: bool)

  function Act(w: Writer, op: Op): (w': Writer)
    requires op.Written? ==> w.inFlight != [] && w.queue != []
  {
    if op.Broadcast? then Accept(w, op.message) else Complete(w, op.ok)
  }

  function Drain(w: Writer, ops: seq<Op>): (w': Writer)
    requires Ordered(w)
    ensures Ordered(w')
    decreases |ops|
  {
    if ops == [] then w
    else if ops[0].Broadcast? then
      AcceptOrdered(w, ops[0].message);
      Drain(Act(w, ops[0]), ops[1..])
    else if w.inFlight != [] then
      CompleteOrdered(w, ops[0].ok);
      Drain(Act(w, ops[0]), ops[1..])
    else Drain(w, ops[1..])
  }

  function Broadcasts(ops: seq<Op>): (ms: seq<Message>)
    decreases |ops|
  {
    if ops == [] then []
    else (if ops[0].Broadcast? then [ops[0].message] else []) + Broadcasts(ops[1..])
  }

  /** In every interleaving of handlers, the messages written and those still queued are those broadcast,
      in order. */
  lemma {:induction false} NothingLostOrReordered(w: Writer, ops: seq<Op>)
    requires Ordered(w)
    ensures Drain(w, ops).completed + Drain(w, ops).queue == w.completed + w.queue + Broadcasts(ops)
    decreases |ops|
  {
    if ops != [] {
      if ops[0].Broadcast? {
        AcceptOrdered(w, ops[0].message);
        NothingLostOrReordered(Act(w, ops[0]), ops[1..]);
      } else if w.inFlight != [] {
        CompleteOrdered(w, ops[0].ok);
        NothingLostOrReordered(Act(w, ops[0]), ops[1..]);
      } else {
        NothingLostOrReordered(w, ops[1..]);
      }
    }
  }

  /** After a failure no write is ever started again: later messages only pile up. */
  lemma {:induction false} NoWriteAfterFailure(w: Writer, ops: seq<Op>)
    requires Ordered(w) && w.failed
    ensures var w' := Drain(w, ops);
            w'.failed && w'.inFlight == [] && w'.completed == w.completed && w'.queue == w.queue + Broadcasts(ops)
    decreases |ops|
  {
    if ops != [] {
      if ops[0].Broadcast? {
        AcceptOrdered(w, ops[0].message);
        NoWriteAfterFailure(Act(w, ops[0]), ops[1..]);
      } else {
        NoWriteAfterFailure(w, ops[1..]);
      }
    }
  }

  lemma {:induction false} DrainAppend(w: Writer, a: seq<Op>, b: seq<Op>)
    requires Ordered(w)
    ensures Drain(w, a + b) == Drain(Drain(w, a), b)
    decreases |a|
  {
    if a == [] {
      assert a + b == b;
    } else {
      assert (a + b)[1..] == a[1..] + b;
      if a[0].Broadcast? {
        AcceptOrdered(w, a[0].message);
        DrainAppend(Act(w, a[0]), a[1..], b);
      } else if w.inFlight != [] {
        CompleteOrdered(w, a[0].ok);
        DrainAppend(Act(w, a[0]), a[1..], b);
      } else {
        DrainAppend(w, a[1..], b);
      }
    }
  }

  lemma DrainOne(w: Writer, op: Op)
    requires Ordered(w)
    ensures Drain(w, [op]) == if op.Broadcast? || w.inFlight != [] then Act(w, op) else w
  {
    assert [op][1..] == [];
    if op.Broadcast? {
      AcceptOrdered(w, op.message);
    } else if w.inFlight != [] {
      CompleteOrdered(w, op.ok);
    }
  }

  /** A write that fails is the last: whatever comes after it, nothing more is written and nothing is being
      written. */
  lemma FailedWriteIsLast(a: seq<Op>, b: seq<Op>)
    requires Drain(Idle, a).inFlight != []
    ensures var w := Drain(Idle, a + [Written(false)] + b);
            w.inFlight == [] && w.completed == Drain(Idle, a).completed
  {
    var w := Drain(Idle, a);
    DrainAppend(Idle, a + [Written(false)], b);
    DrainAppend(Idle, a, [Written(false)]);
    DrainOne(w, Written(false));
    CompleteOrdered(w, false);
    NoWriteAfterFailure(Complete(w, false), b);
  }

  /** A write that succeeds completes the front of the queue and nothing else, and the next one, if there is
      one, is started at once. */
  lemma WrittenCompletesFront(a: seq<Op>)
    requires Drain(Idle, a).inFlight != []
    ensures var w, w' := Drain(Idle, a), Drain(Idle, a + [Written(true)]);
            && w.queue != [] && w'.completed == w.completed + [w.queue[0]] && w'.queue == w.queue[1..]
            && w'.inFlight == w.queue[1..][..if |w.queue| > 1 then 1 else 0]
  {
    DrainAppend(Idle, a, [Written(true)]);
    DrainOne(Drain(Idle, a), Written(true));
    CompleteOrdered(Drain(Idle, a), true);
  }

  lemma {:induction false} NoFailureKeepsWriting(w: Writer, ops: seq<Op>)
    requires Ordered(w) && !w.failed && Written(false) !in ops
    ensures !Drain(w, ops).failed
    decreases |ops|
  {
    if ops != [] {
      assert ops[0] in ops && forall op :: op in ops[1..] ==> op in ops;
      if ops[0].Broadcast? {
        AcceptOrdered(w, ops[0].message);
        NoFailureKeepsWriting(Act(w, ops[0]), ops[1..]);
      } else if w.inFlight != [] {
        CompleteOrdered(w, ops[0].ok);
        NoFailureKeepsWriting(Act(w, ops[0]), ops[1..]);
      } else {
        NoFailureKeepsWriting(w, ops[1..]);
      }
    }
  }

  /** As long as no write has failed, the front of the queue is being written whenever there is one, and
      nothing else ever is. */
  lemma FrontIsBeingWritten(ops: seq<Op>)
    requires Written(false) !in ops
    ensures var w := Drain(Idle, ops); w.inFlight == w.queue[..if w.queue == [] then 0 else 1]
  {
    NoFailureKeepsWriting(Idle, ops);
  }
}
