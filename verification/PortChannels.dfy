/** Pruning of port channels: a channel with a member that is no port of the platform goes, with all its
    members and interfaces. */
module PortChannels {

  /** A key of the interface table: a channel, or a channel with an address. */
  datatype Key = Name(channel: string) | Address(channel: string, prefix: string)

  type Attributes = map<string, string>

  type Member = (string, string)

  // ----- what should be left -----

  /** Every member of the channel is a port. */
  predicate Sound(channel: string, members: set<Member>, ports: set<string>) {
    forall m :: m in members && m.0 == channel ==> m.1 in ports
  }

  function SoundChannels(channels: map<string, Attributes>, members: set<Member>, ports: set<string>): map<string, Attributes> {
    map c | c in channels && Sound(c, members, ports) :: channels[c]
  }

  function SoundMembers(members: set<Member>, ports: set<string>): set<Member> {
    set m | m in members && Sound(m.0, members, ports)
  }

  function WithDefaults(a: Attributes): Attributes {
    a["mtu" := "9100"]["tpid" := "0x8100"]["admin_status" := "up"]
  }

  function AllWithDefaults(channels: map<string, Attributes>): map<string, Attributes> {
    map c | c in channels :: WithDefaults(channels[c])
  }

  /** Interfaces are entered with and without their address. */
  predicate Paired(interfaces: set<Key>) {
    forall k :: k in interfaces && k.Name? ==> exists a :: a in interfaces && a.Address? && a.channel == k.channel
  }

  /** Interfaces of channels that exist. */
  function Attached(interfaces: set<Key>, channels: map<string, Attributes>): set<Key> {
    set k | k in interfaces && k.channel in channels
  }

  /** What is left of the interfaces: those of channels that exist, and names that have no address. */
  function Remaining(interfaces: set<Key>, channels: map<string, Attributes>): set<Key> {
    StillAttached(interfaces, interfaces, channels)
  }

  /** A name without an address, of a channel that does not exist. */
  ghost predicate Lonely(interfaces: set<Key>, channels: map<string, Attributes>) {
    exists k :: k in interfaces && k.Name? && k.channel !in channels
                && forall a :: a in interfaces && a.channel == k.channel ==> a.Name?
  }

  // ----- the tables -----

  class Tables {
    var channels: map<string, Attributes>
    var members: set<Member>
    var interfaces: set<Key>

    constructor (channels: map<string, Attributes>, members: set<Member>, interfaces: set<Key>)
      ensures this.channels == channels && this.members == members && this.interfaces == interfaces
    {
      this.channels, this.members, this.interfaces := channels, members, interfaces;
    }

    /** Enters an interface with an address: two keys. */
    method AddInterface(channel: string, prefix: string)
      modifies this`interfaces
      ensures interfaces == old(interfaces) + {Address(channel, prefix), Name(channel)}
      ensures old(Paired(interfaces)) ==> Paired(interfaces)
    {
      interfaces := interfaces + {Address(channel, prefix), Name(channel)};
      assert Address(channel, prefix) in interfaces;
    }

    /** Deletes a channel and its members. A channel that is not there is an error. */
    method DeleteChannel(channel: string) returns (ok: bool)
      modifies this`channels, this`members
      ensures ok <==> channel in old(channels)
      ensures ok ==> channels == old(channels) - {channel} && members == set m | m in old(members) && m.0 != channel
    {
      ok := channel in channels;
      if ok {
        channels := channels - {channel};
        members := set m | m in members && m.0 != channel;
      }
    }

    /** Deletes the channels with members that are no ports, looking at the members in any order. The
        deletions hit no missing channel exactly when every bad member has a channel. */
    method PruneChannels(ports: set<string>) returns (ok: bool)
      modifies this`channels, this`members
      ensures ok <==> forall m :: m in old(members) && m.1 !in ports ==> m.0 in old(channels)
      ensures ok ==> channels == SoundChannels(old(channels), old(members), ports)
                     && members == SoundMembers(old(members), ports)
    {
      ghost var channels0, members0, seen := channels, members, {};
      var todo := members;
      while todo != {}
        invariant todo <= members0 && seen == members0 - todo
        invariant Pruned(seen, ports, channels0, members0, channels, members)
        invariant forall m :: m in seen && m.1 !in ports ==> m.0 in channels0
        decreases todo
      {
        var m :| m in todo;
        todo := todo - {m};
        PrunedNext(seen, m, ports, channels0, members0, channels, members);
        if m in members && m.1 !in ports {
          ok := DeleteChannel(m.0);
          if !ok {
            assert m.0 !in channels0;
            return;
          }
        }
        seen := seen + {m};
      }
      assert seen == members0;
      PrunedAll(ports, channels0, members0, channels, members);
      ok := true;
    }

    /** Deletes the interfaces of channels that are gone: their addresses, and their names if they had addresses. */
    method PruneInterfaces()
      modifies this`interfaces
      ensures interfaces == Remaining(old(interfaces), channels)
    {
      ghost var before := interfaces;
      var todo := interfaces;
      ghost var seen: set<Key> := {};
      while todo != {}
        invariant todo <= before && seen == before - todo
        invariant interfaces == StillAttached(before, seen, channels)
        decreases todo
      {
        var k :| k in todo;
        todo := todo - {k};
        DetachNext(before, seen, k, channels);
        if k.Address? && k.channel !in channels {
          interfaces := interfaces - {k, Name(k.channel)};
        }
        seen := seen + {k};
      }
      assert seen == before;
    }

    /** The whole pruning. It fails exactly when a member that is no port has no channel. Nothing is left that is not
        held by a port or a channel, if members had channels and interfaces had addresses. */
    method Prune(ports: set<string>, havePortConfig: bool) returns (ok: bool)
      modifies this
      ensures ok <==> havePortConfig ==> forall m :: m in old(members) && m.1 !in ports ==> m.0 in old(channels)
      ensures var channels1 := if havePortConfig then SoundChannels(old(channels), old(members), ports) else old(channels);
              ok ==>
                && channels == AllWithDefaults(channels1)
                && members == (if havePortConfig then SoundMembers(old(members), ports) else old(members))
                && interfaces == Remaining(old(interfaces), channels1)
      ensures ok ==> (forall m :: m in members && m.0 in old(channels) ==> m.0 in channels)
                     && (havePortConfig ==> forall m :: m in members ==> m.1 in ports)
                     && forall m :: m in old(members) && m.0 in channels ==> m in members
      ensures ok ==> ((forall k :: k in interfaces ==> k.channel in channels) <==> !Lonely(old(interfaces), channels))
      ensures ok && old(Paired(interfaces)) ==> Paired(interfaces) && forall k :: k in interfaces ==> k.channel in channels
    {
      ok := true;
      if havePortConfig {
        ok := PruneChannels(ports);
        if !ok {
          return;
        }
      }
      channels := AllWithDefaults(channels);
      AllAttached(interfaces, channels);
      if Paired(interfaces) {
        DetachAll(interfaces, channels);
      }
      PruneInterfaces();
    }
  }

  /** What is left of the interfaces after the keys in `seen`. */
  function StillAttached(before: set<Key>, seen: set<Key>, channels: map<string, Attributes>): set<Key> {
    set k | k in before && !Detached(k, seen, channels)
  }

  predicate Detached(k: Key, seen: set<Key>, channels: map<string, Attributes>) {
    k.channel !in channels && if k.Address? then k in seen else exists a :: a in seen && a.Address? && a.channel == k.channel
  }

  lemma DetachNext(before: set<Key>, seen: set<Key>, k: Key, channels: map<string, Attributes>)
    requires k in before
    ensures StillAttached(before, seen + {k}, channels) ==
            if k.Address? && k.channel !in channels then StillAttached(before, seen, channels) - {k, Name(k.channel)}
            else StillAttached(before, seen, channels)
  {
    forall x | x in before
      ensures Detached(x, seen + {k}, channels) <==>
              Detached(x, seen, channels) || (k.Address? && k.channel !in channels && (x == k || x == Name(k.channel)))
    {
      if x.Name? && Detached(x, seen, channels) {
        var a :| a in seen && a.Address? && a.channel == x.channel;
        assert a in seen + {k};
      }
      if x.Name? && k.Address? && x == Name(k.channel) { assert k in seen + {k}; }
    }
  }

  /** Exactly the interfaces of existing channels are left, unless some name has no address. */
  lemma AllAttached(before: set<Key>, channels: map<string, Attributes>)
    ensures (forall k :: k in Remaining(before, channels) ==> k.channel in channels) <==> !Lonely(before, channels)
    ensures Attached(before, channels) <= Remaining(before, channels)
  {
    if k :| k in Remaining(before, channels) && k.channel !in channels {
      assert k.Name? && forall a :: a in before && a.channel == k.channel ==> a.Name?;
    }
    if Lonely(before, channels) {
      var k :| k in before && k.Name? && k.channel !in channels && forall a :: a in before && a.channel == k.channel ==> a.Name?;
      assert k in Remaining(before, channels);
    }
  }

  /** Interfaces that are entered with their addresses stay so, and no other is left. */
  lemma DetachAll(before: set<Key>, channels: map<string, Attributes>)
    requires Paired(before)
    ensures Remaining(before, channels) == Attached(before, channels) && Paired(Attached(before, channels))
    ensures !Lonely(before, channels)
  {
    forall k | k in Attached(before, channels) && k.Name?
      ensures exists a :: a in Attached(before, channels) && a.Address? && a.channel == k.channel
    {
      var a :| a in before && a.Address? && a.channel == k.channel;
      assert a in Attached(before, channels);
    }
  }

  /** Channels whose bad members have been seen are gone, all others are as they were. */
  ghost predicate Pruned(seen: set<Member>, ports: set<string>, channels0: map<string, Attributes>, members0: set<Member>,
                         channels: map<string, Attributes>, members: set<Member>) {
    && (forall c :: c in channels <==> c in channels0 && !Condemned(c, seen, ports))
    && (forall c :: c in channels ==> channels[c] == channels0[c])
    && (forall m :: m in members <==> m in members0 && !Condemned(m.0, seen, ports))
  }

  ghost predicate Condemned(channel: string, seen: set<Member>, ports: set<string>) {
    exists m :: m in seen && m.0 == channel && m.1 !in ports
  }

  lemma PrunedNext(seen: set<Member>, m: Member, ports: set<string>, channels0: map<string, Attributes>, members0: set<Member>,
                   channels: map<string, Attributes>, members: set<Member>)
    requires Pruned(seen, ports, channels0, members0, channels, members) && m in members0
    ensures m.1 in ports || m !in members ==> Pruned(seen + {m}, ports, channels0, members0, channels, members)
    ensures m.1 !in ports ==>
              Pruned(seen + {m}, ports, channels0, members0, channels - {m.0}, set n | n in members && n.0 != m.0)
  {
    forall c ensures Condemned(c, seen + {m}, ports) <==> Condemned(c, seen, ports) || (c == m.0 && m.1 !in ports) {
      if Condemned(c, seen, ports) {
        var n :| n in seen && n.0 == c && n.1 !in ports;
        assert n in seen + {m};
      }
      if c == m.0 && m.1 !in ports { assert m in seen + {m}; }
    }
  }

  lemma PrunedAll(ports: set<string>, channels0: map<string, Attributes>, members0: set<Member>,
                  channels: map<string, Attributes>, members: set<Member>)
    requires Pruned(members0, ports, channels0, members0, channels, members)
    ensures channels == SoundChannels(channels0, members0, ports) && members == SoundMembers(members0, ports)
  {
    forall c ensures Condemned(c, members0, ports) <==> !Sound(c, members0, ports) {
    }
  }
}
