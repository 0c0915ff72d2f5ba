/** The `WebsocketHandler` object: each of its handlers as one method, run to its end. `WriteQueue` and
    `Fanout` interleave them. */
module WebsocketHandler {
  import opened WriteQueue
  import opened GlobalWebsocketState

  /** `id` stands for the address of the object. The ghost fields are what `WriteQueue` keeps of a writer. */
  class WebsocketHandler {
    const id: nat
    const state: State
    var channel: string
    var incomingBuffer: string
    var queue: seq<Message>
    ghost var inFlight: seq<Message>
    ghost var failed: bool
    ghost var completed: seq<Message>
    ghost var accepted: seq<Message>

    ghost function Outgoing(): Writer
      reads this
    {
      Writer(queue, inFlight, failed, completed, accepted)
    }

    ghost predicate Valid()
      reads this
    {
      Ordered(Outgoing())
    }

    constructor (id: nat, state: State)
      ensures Valid() && Outgoing() == Idle && this.id == id && this.state == state
      ensures channel == "" && incomingBuffer == ""
    {
      this.id, this.state, channel, incomingBuffer := id, state, "", "";
      queue, inFlight, failed, completed, accepted := [], [], false, [], [];
    }

    /** The destructor. `found` is false where the lookup of the channel throws. */
    method Destroy() returns (found: bool)
      modifies state
      ensures found == (channel in old(state.channels))
      ensures state.channels == if found then WithoutMember(old(state.channels), channel, id) else old(state.channels)
    {
      found := state.Remove(channel, id);
    }

    method Run(target: string)
      modifies this`channel
      ensures channel == target
    {
      channel := target;
    }

    method OnConnect(ok: bool)
      modifies state
      ensures state.channels ==
                if ok then WithMember(WithChannel(old(state.channels), channel), channel, id) else old(state.channels)
    {
      if !ok { return; }
      state.Add(channel, id);
    }

    /** `payload` is what the read has put behind the buffer. The message that the members get is the whole
        buffer, and the buffer is empty for the next read. */
    method OnReceive(ok: bool, payload: string, alive: set<nat>)
      returns (found: bool, message: string, recipients: seq<nat>)
      modifies this`incomingBuffer
      ensures found == (ok && channel in state.channels) && Distinct(recipients)
      ensures found ==> message == old(incomingBuffer) + payload && incomingBuffer == ""
      ensures !found ==> incomingBuffer == old(incomingBuffer) + payload
      ensures (set p | p in recipients) == if found then state.channels[channel] * alive else {}
    {
      incomingBuffer := incomingBuffer + payload;
      message, recipients := incomingBuffer, [];
      if !ok { return false, message, recipients; }
      found, recipients := state.Broadcast(channel, alive);
      if found {
        incomingBuffer := "";
      }
    }

    method OnBroadcast(message: Message)
      requires Valid()
      modifies this`queue, this`inFlight, this`accepted
      ensures Valid() && Outgoing() == Accept(old(Outgoing()), message)
    {
      AcceptOrdered(Outgoing(), message);
      queue := queue + [message];
      accepted := accepted + [message];
      if |queue| > 1 { return; }
      AsyncWrite(queue[0]);
    }

    method OnWrite(ok: bool)
      requires Valid() && inFlight != []
      modifies this`queue, this`inFlight, this`failed, this`completed
      ensures Valid() && Outgoing() == Complete(old(Outgoing()), ok)
    {
      CompleteOrdered(Outgoing(), ok);
      ghost var written := inFlight[0];
      inFlight := inFlight[1..];
      if !ok {
        failed := true;
        return;
      }
      completed := completed + [written];
      queue := queue[1..];
      if queue != [] {
        AsyncWrite(queue[0]);
      }
    }

    ghost method AsyncWrite(message: Message)
      modifies this`inFlight
      ensures inFlight == old(inFlight) + [message]
    {
      inFlight := inFlight + [message];
    }
  }

  /** A session by itself, from its constructor to its destructor: whether or not the handshake succeeded the
      members of all channels are as before, and what stays of one that joined is its channel. The lookup of
      the destructor fails exactly if it did not join and nobody has created that channel. */
  method Visit(id: nat, state: State, target: string, ok: bool) returns (found: bool)
    requires forall c :: c in state.channels ==> id !in state.channels[c]
    modifies state
    ensures found <==> ok || target in old(state.channels)
    ensures state.channels == if ok then WithChannel(old(state.channels), target) else old(state.channels)
  {
    if ok || target in state.channels {
      LeavesNoTrace(WithChannel(state.channels, target), target, id);
    }
    var session := new WebsocketHandler(id, state);
    session.Run(target);
    session.OnConnect(ok);
    found := session.Destroy();
  }
}
