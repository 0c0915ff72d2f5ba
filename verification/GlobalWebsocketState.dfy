/** `GlobalWebsocketState`: the channels and their member sets. Each method that touches the state is one
    critical section of the source, so that `Fanout` can interleave them. */
module GlobalWebsocketState {

  type Channels = map<string, set<nat>>

  function WithChannel(cs: Channels, channel: string): (r: Channels) {
    if channel in cs then cs else cs[channel := {}]
  }

  function WithMember(cs: Channels, channel: string, session: nat): (r: Channels)
    requires channel in cs
  {
    cs[channel := cs[channel] + {session}]
  }

  function WithoutMember(cs: Channels, channel: string, session: nat): (r: Channels)
    requires channel in cs
  {
    cs[channel := cs[channel] - {session}]
  }

  /** A session that is not there can leave without a trace, also after having been added. */
  lemma LeavesNoTrace(cs: Channels, channel: string, session: nat)
    requires channel in cs && session !in cs[channel]
    ensures WithoutMember(cs, channel, session) == cs
    ensures WithoutMember(WithMember(cs, channel, session), channel, session) == cs
  {
    assert cs[channel] + {session} - {session} == cs[channel] - {session} == cs[channel];
  }

  predicate Distinct(v: seq<nat>) { forall i, j :: 0 <= i < j < |v| ==> v[i] != v[j] }

  class State {
    var channels: Channels

    constructor ()
      ensures channels == map[]
    {
      channels := map[];
    }

    /** The part of `Add` under the map lock. */
    method FindOrCreate(channel: string)
      modifies this
      ensures channels == WithChannel(old(channels), channel)
    {
      if channel !in channels {
        channels := channels[channel := {}];
      }
    }

    /** The part of `Add` under the channel lock. */
    method Insert(channel: string, session: nat)
      requires channel in channels
      modifies this
      ensures channels == WithMember(old(channels), channel, session)
    {
      channels := channels[channel := channels[channel] + {session}];
    }

    method Add(channel: string, session: nat)
      modifies this
      ensures channels == WithMember(WithChannel(old(channels), channel), channel, session)
    {
      FindOrCreate(channel);
      Insert(channel, session);
    }

    /** `found` is false where `map_.at` throws. */
    method Remove(channel: string, session: nat) returns (found: bool)
      modifies this
      ensures found == (channel in old(channels))
      ensures channels == if found then WithoutMember(old(channels), channel, session) else old(channels)
    {
      if channel !in channels { return false; }
      channels := channels[channel := channels[channel] - {session}];
      return true;
    }

    /** The part of `Broadcast` under the channel lock: the members, each once, in some order. */
    method Snapshot(channel: string) returns (v: seq<nat>)
      requires channel in channels
      ensures Distinct(v) && (set p | p in v) == channels[channel]
    {
      v := [];
      var left := channels[channel];
      while left != {}
        invariant left <= channels[channel] && Distinct(v)
        invariant forall p :: p in v <==> p in channels[channel] && p !in left
        decreases left
      {
        var p :| p in left;
        v := v + [p];
        left := left - {p};
      }
    }

    /** `Broadcast` while nothing else runs: every member whose weak pointer can be promoted gets the
        message once, and nobody else does. */
    method Broadcast(channel: string, alive: set<nat>) returns (found: bool, recipients: seq<nat>)
      ensures found == (channel in channels)
      ensures Distinct(recipients)
      ensures (set p | p in recipients) == if found then channels[channel] * alive else {}
    {
      recipients := [];
      if channel !in channels { return false, recipients; }
      var v := Snapshot(channel);
      for i := 0 to |v|
        invariant Distinct(recipients)
        invariant forall p :: p in recipients <==> p in v[..i] && p in alive
      {
        assert v[..i + 1] == v[..i] + [v[i]];
        if v[i] in alive {
          recipients := recipients + [v[i]];
        }
      }
      assert v[..|v|] == v;
      assert forall p :: p in v <==> p in (set q | q in v);
      return true, recipients;
    }
  }
}
