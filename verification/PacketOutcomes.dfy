/** What a message leaves behind on a running server: the row stored for an acknowledged
    REQUEST, and what a RELEASE or a DECLINE takes away. */
module PacketOutcomes {
  import opened Net
  import opened Allocation
  import opened LeaseStore
  import opened DhcpServer
  import opened LeaseRuns
  import opened GrantOutcomes
  import opened RequestOutcomes

  // The row stored for an acknowledgement: the lease as granted, seen now.
  lemma AcknowledgedRow(s: Sys, m: Message, ip: Addr)
    requires Good(s.mem) && m.kind == Request && Acking(s.cfg, s.mem, m, s.clock).granted.Some?
    requires Acking(s.cfg, s.mem, m, s.clock).granted.value.ip == ip
    ensures ToPersist(s, m) ==
      [PutRow(m.mac, Row(ip, if NameIsElsewhere(s.mem, m.hostname, m.mac, s.clock) then "" else m.hostname,
                         s.clock + s.cfg.leaseTime, s.clock))]
  {
    AcknowledgedExactly(s.cfg, s.mem, m, s.clock, ip);
    RequestIsRemembered(s.cfg, s.mem, m, s.clock, ip);
    hide Acking, Due, Good, Recorded, Asks, Present, Contains, Unmap;
  }

  // ----- RELEASE and DECLINE -----

  // Every client but the sender keeps its lease, and no reservation moves.
  ghost predicate OnlyTouches(s: State, after: State, mac: string) {
    && after.reserved == s.reserved && after.reservedIP == s.reservedIP
    && (forall m :: m != mac ==> (m in after.byMAC <==> m in s.byMAC))
    && (forall m :: m != mac && m in s.byMAC ==> after.byMAC[m] == s.byMAC[m])
  }

  // A RELEASE ends the sender's lease exactly when it names this server and, as the
  // client's own address, the one leased. Nothing is set aside.
  lemma ReleaseEndsExactly(s: Sys, m: Message)
    requires Good(s.mem) && m.kind == ReleaseMsg && m.mac in s.mem.byMAC
    ensures var after := Remember(s, m);
      && (m.mac !in after.byMAC <==>
            m.serverID != NoAddr && Unmap(m.serverID) == s.cfg.host &&
            m.client != NoAddr && !IsUnspecified(m.client) && Unmap(m.client) == s.mem.byMAC[m.mac].ip)
      && OnlyTouches(s.mem, after, m.mac) && after.quarantine == s.mem.quarantine
      && (m.mac in after.byMAC ==> after == s.mem && ToPersist(s, m) == [])
      && (m.mac !in after.byMAC ==> ToPersist(s, m) == [DeleteRow(m.mac)])
  {
  }

  // A DECLINE ends it exactly when it names the address leased in the requested-address
  // option; and sets that address aside for ten minutes if it is in the range.
  lemma DeclineEndsExactly(s: Sys, m: Message)
    requires Good(s.mem) && m.kind == DeclineMsg && m.mac != "" && m.mac in s.mem.byMAC
    ensures var after := Remember(s, m);
      var ip := s.mem.byMAC[m.mac].ip;
      && (m.mac !in after.byMAC <==> m.requested != NoAddr && Unmap(m.requested) == ip)
      && OnlyTouches(s.mem, after, m.mac)
      && (m.mac in after.byMAC ==> after == s.mem && ToPersist(s, m) == [])
      && (m.mac !in after.byMAC ==>
            && ToPersist(s, m) == [DeleteRow(m.mac)]
            && after.quarantine == (if InRange(s.cfg, ip) then s.mem.quarantine[ip := s.clock + 600]
                                    else s.mem.quarantine))
  {
  }

  // From a client that has no lease neither does anything.
  lemma StrangerEndsNothing(s: Sys, m: Message)
    requires Good(s.mem) && m.kind in {ReleaseMsg, DeclineMsg} && m.mac !in s.mem.byMAC
    ensures Remember(s, m) == s.mem && ToPersist(s, m) == []
  {
  }
}
