/** Which services get their reservation, and what is said of those that do not, in terms
    of MACs, addresses and positions in the service list alone. */
module ReservationOutcomes {
  import opened Wrappers
  import opened Net
  import opened Reserve

  // One of the texts is this address, and it lies in the subnet.
  predicate Lists(text: Text, subnet: Prefix, svc: Service, a: Addr) {
    Contains(subnet, a) && exists t :: t in svc.addresses && Unmap(text.parse(t)) == a
  }

  // It is the one address in the subnet that the service lists, and a device may have it.
  ghost predicate Wants(text: Text, subnet: Prefix, svc: Service, a: Addr) {
    && Lists(text, subnet, svc, a) && (forall b :: Lists(text, subnet, svc, b) ==> b == a)
    && a != NetworkOf(subnet) && a != BroadcastOf(subnet)
  }

  // No other service of the list has its MAC.
  predicate AloneWithMAC(text: Text, svcs: seq<Service>, i: nat)
    requires i < |svcs|
  {
    && text.normalize(svcs[i].mac) != ""
    && forall j :: 0 <= j < |svcs| && j != i ==> text.normalize(svcs[j].mac) != text.normalize(svcs[i].mac)
  }

  // The service at i has a MAC of its own, wants the address, and nobody else who has one
  // wants it too.
  ghost predicate Wins(text: Text, subnet: Prefix, svcs: seq<Service>, i: nat, a: Addr)
    requires i < |svcs|
  {
    && AloneWithMAC(text, svcs, i) && Wants(text, subnet, svcs[i], a)
    && forall j: nat :: j < |svcs| && j != i && AloneWithMAC(text, svcs, j) ==> !Wants(text, subnet, svcs[j], a)
  }

  // ----- counts and positions -----

  lemma {:induction false} CountsNone<T>(p: T -> bool, s: seq<T>)
    ensures Count(p, s) == 0 <==> forall j :: 0 <= j < |s| ==> !p(s[j])
  {
    if s != [] { CountsNone(p, s[..|s| - 1]); }
  }

  lemma {:induction false} CountsOne<T>(p: T -> bool, s: seq<T>, i: nat)
    requires i < |s| && p(s[i])
    ensures Count(p, s) <= 1 <==> forall j :: 0 <= j < |s| && j != i ==> !p(s[j])
  {
    var n := |s| - 1;
    if i < n {
      CountsOne(p, s[..n], i);
    } else {
      CountsNone(p, s[..n]);
    }
    CountOccurs(p, s, i, i);
    if i < n && p(s[n]) { CountOccurs(p, s, i, n); }
  }

  lemma MACIsAlone(text: Text, svcs: seq<Service>, i: nat)
    requires i < |svcs|
    ensures AloneWithMAC(text, svcs, i) <==>
      MACOf(text, svcs[i]) != "" && MACClaims(text, svcs, MACOf(text, svcs[i])) <= 1
  {
    CountsOne(HasMAC(text, MACOf(text, svcs[i])), svcs, i);
  }

  lemma ListsIsSeen(text: Text, subnet: Prefix, svc: Service, a: Addr)
    ensures Lists(text, subnet, svc, a) <==> a in Seen(text, subnet, svc.addresses)
  {
  }

  lemma WantsIsBid(text: Text, subnet: Prefix, svc: Service, a: Addr)
    ensures Wants(text, subnet, svc, a) <==> Bid(text, subnet, svc) == Ok(a)
  {
    var seen := Seen(text, subnet, svc.addresses);
    forall b ensures Lists(text, subnet, svc, b) <==> b in seen { ListsIsSeen(text, subnet, svc, b); }
    hide Seen, Lists, NetworkOf, BroadcastOf;
    if Wants(text, subnet, svc, a) { assert seen == {a}; }
    if |seen| == 1 { SingletonMember(seen); }
  }

  lemma StandsByPosition(text: Text, subnet: Prefix, svcs: seq<Service>, i: nat, a: Addr)
    requires i < |svcs|
    ensures StandsFor(text, subnet, svcs, svcs[i], a) <==>
      AloneWithMAC(text, svcs, i) && Wants(text, subnet, svcs[i], a)
  {
    MACIsAlone(text, svcs, i);
    WantsIsBid(text, subnet, svcs[i], a);
  }

  lemma WinsIsVerdict(text: Text, subnet: Prefix, svcs: seq<Service>, i: nat, a: Addr)
    requires i < |svcs|
    ensures Wins(text, subnet, svcs, i, a) <==> Verdict(text, subnet, svcs, svcs[i]) == Some(Ok(a))
  {
    forall j: nat | j < |svcs|
      ensures StandsFor(text, subnet, svcs, svcs[j], a) <==>
        AloneWithMAC(text, svcs, j) && Wants(text, subnet, svcs[j], a)
    {
      StandsByPosition(text, subnet, svcs, j, a);
    }
    hide AloneWithMAC, Wants, Bid, MACClaims;
    if StandsFor(text, subnet, svcs, svcs[i], a) { CountsOne(Standing(text, subnet, svcs, a), svcs, i); }
  }

  // An address is reserved for a MAC exactly when some service of the list has that MAC and
  // wins the address.
  lemma ReservedByPosition(text: Text, subnet: Prefix, svcs: seq<Service>, mac: string, a: Addr)
    ensures (mac in Reserved(text, subnet, svcs) && Reserved(text, subnet, svcs)[mac] == a) <==>
      exists i: nat :: i < |svcs| && text.normalize(svcs[i].mac) == mac && Wins(text, subnet, svcs, i, a)
  {
    ReservedExactly(text, subnet, svcs, mac, a);
    forall i: nat | i < |svcs|
      ensures Wins(text, subnet, svcs, i, a) <==> Verdict(text, subnet, svcs, svcs[i]) == Some(Ok(a))
    {
      WinsIsVerdict(text, subnet, svcs, i, a);
    }
  }

  // The reason given for a service that has a MAC and wins nothing. A MAC shared comes
  // before everything; then no address in the subnet, or several; then one no device may
  // have; and last one that others want too.
  lemma ReasonByPosition(text: Text, subnet: Prefix, svcs: seq<Service>, i: nat)
    requires i < |svcs| && text.normalize(svcs[i].mac) != ""
    ensures var mac, r := text.normalize(svcs[i].mac), Reported(text, subnet, svcs, svcs[i]);
      && (r.None? <==> exists a :: Wins(text, subnet, svcs, i, a))
      && (r.Some? ==> r.value.service == svcs[i].name && r.value.mac == mac)
      && (r.Some? ==>
            if !AloneWithMAC(text, svcs, i) then r.value.reason.SharedMAC?
            else if forall a :: !Lists(text, subnet, svcs[i], a) then r.value.reason == NoAddress
            else if exists a, b :: Lists(text, subnet, svcs[i], a) && Lists(text, subnet, svcs[i], b) && a != b
            then r.value.reason.ManyAddresses?
            else if exists a :: Wants(text, subnet, svcs[i], a)
            then r.value.reason.SharedAddress? && Wants(text, subnet, svcs[i], r.value.reason.taken)
            else r.value.reason.NetworkOrBroadcast? && Lists(text, subnet, svcs[i], r.value.reason.addr))
  {
    MACIsAlone(text, svcs, i);
    forall a ensures Wins(text, subnet, svcs, i, a) <==> Verdict(text, subnet, svcs, svcs[i]) == Some(Ok(a)) {
      WinsIsVerdict(text, subnet, svcs, i, a);
    }
    forall a ensures Wants(text, subnet, svcs[i], a) <==> Bid(text, subnet, svcs[i]) == Ok(a) {
      WantsIsBid(text, subnet, svcs[i], a);
    }
    hide Wins, Wants, AloneWithMAC, MACClaims, AddressClaims, NetworkOf, BroadcastOf;
    ReasonOfBid(text, subnet, svcs[i]);
  }

  lemma ReasonOfBid(text: Text, subnet: Prefix, svc: Service)
    ensures match Bid(text, subnet, svc)
      case Ok(a) => true
      case Err(NoAddress) => forall a :: !Lists(text, subnet, svc, a)
      case Err(ManyAddresses(_)) =>
        exists a, b :: Lists(text, subnet, svc, a) && Lists(text, subnet, svc, b) && a != b
      case Err(NetworkOrBroadcast(a)) =>
        Lists(text, subnet, svc, a) && forall b :: Lists(text, subnet, svc, b) ==> b == a
      case Err(_) => false
    ensures Bid(text, subnet, svc).Ok? ==>
      forall a, b :: Lists(text, subnet, svc, a) && Lists(text, subnet, svc, b) ==> a == b
    ensures Bid(text, subnet, svc).Ok? ==> exists a :: Lists(text, subnet, svc, a)
  {
    var seen := Seen(text, subnet, svc.addresses);
    forall b ensures Lists(text, subnet, svc, b) <==> b in seen { ListsIsSeen(text, subnet, svc, b); }
    hide Seen, Lists, NetworkOf, BroadcastOf;
    if |seen| == 1 {
      SingletonMember(seen);
    } else if |seen| > 1 {
      var a :| a in seen;
      assert |seen - {a}| >= 1;
      var b :| b in seen - {a};
    }
  }
}
