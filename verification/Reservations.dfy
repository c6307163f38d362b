/** Which client gets which address reserved: every service bids with its MAC and
    its one address inside the DHCP subnet, and only undisputed bids win. */
module Reserve {
  import opened Wrappers
  import opened Net
  import Sequences

  datatype Service = Service(name: string, mac: string, addresses: seq<string>)

  datatype Reason =
    | NetworkOrBroadcast(addr: Addr)
    | NoAddress
    | ManyAddresses(count: nat)
    | SharedMAC(count: nat)
    | SharedAddress(count: nat, taken: Addr)

  datatype Problem = Problem(service: string, mac: string, reason: Reason)

  // The text functions of other packages: how a MAC is normalized and what
  // netip.ParseAddr makes of a text (NoAddr for a parse error).
  datatype Text = Text(normalize: string -> string, parse: string -> Addr)

  // ----- the rule, service by service -----

  function Count<T>(p: T -> bool, s: seq<T>): nat {
    if s == [] then 0 else Count(p, s[..|s| - 1]) + (if p(s[|s| - 1]) then 1 else 0)
  }

  // The distinct addresses among these texts that lie inside the subnet.
  function Seen(text: Text, subnet: Prefix, addresses: seq<string>): set<Addr> {
    set a | a in addresses && Contains(subnet, Unmap(text.parse(a))) :: Unmap(text.parse(a))
  }

  // What a service asks for, judged on its own.
  function Bid(text: Text, subnet: Prefix, svc: Service): Result<Addr, Reason> {
    var seen := Seen(text, subnet, svc.addresses);
    if |seen| == 1 then
      SingletonMember(seen);
      var a :| a in seen;
      if a == NetworkOf(subnet) || a == BroadcastOf(subnet) then Err(NetworkOrBroadcast(a)) else Ok(a)
    else if |seen| == 0 then Err(NoAddress)
    else Err(ManyAddresses(|seen|))
  }

  lemma SingletonMember<T>(s: set<T>)
    requires |s| == 1
    ensures exists x :: x in s
    ensures forall x, y :: x in s && y in s ==> x == y
  {
    var x :| x in s;
    assert |s - {x}| == 0;
    assert forall y :: y in s ==> y == x || y in s - {x};
  }

  function MACOf(text: Text, svc: Service): string { text.normalize(svc.mac) }

  function HasMAC(text: Text, mac: string): Service -> bool {
    s => MACOf(text, s) == mac
  }

  function MACClaims(text: Text, svcs: seq<Service>, mac: string): nat {
    Count(HasMAC(text, mac), svcs)
  }

  // A bid the MAC rule leaves standing, for this address.
  predicate StandsFor(text: Text, subnet: Prefix, svcs: seq<Service>, s: Service, a: Addr) {
    MACOf(text, s) != "" && MACClaims(text, svcs, MACOf(text, s)) <= 1 && Bid(text, subnet, s) == Ok(a)
  }

  function Standing(text: Text, subnet: Prefix, svcs: seq<Service>, a: Addr): Service -> bool {
    s => StandsFor(text, subnet, svcs, s, a)
  }

  function AddressClaims(text: Text, subnet: Prefix, svcs: seq<Service>, a: Addr): nat {
    Count(Standing(text, subnet, svcs, a), svcs)
  }

  // The verdict on one service among all of them: no claim, reserved, or why not.
  function Verdict(text: Text, subnet: Prefix, svcs: seq<Service>, s: Service): Option<Result<Addr, Reason>> {
    if MACOf(text, s) == "" then None
    else if MACClaims(text, svcs, MACOf(text, s)) > 1 then Some(Err(SharedMAC(MACClaims(text, svcs, MACOf(text, s)))))
    else match Bid(text, subnet, s)
      case Err(why) => Some(Err(why))
      case Ok(a) =>
        if AddressClaims(text, subnet, svcs, a) > 1
        then Some(Err(SharedAddress(AddressClaims(text, subnet, svcs, a), a)))
        else Some(Ok(a))
  }

  function Reported(text: Text, subnet: Prefix, svcs: seq<Service>, s: Service): Option<Problem> {
    match Verdict(text, subnet, svcs, s)
    case Some(Err(why)) => Some(Problem(s.name, MACOf(text, s), why))
    case _ => None
  }

  // ctx is the whole list; svcs is the part already decided.
  function ReservedSoFar(text: Text, subnet: Prefix, ctx: seq<Service>, svcs: seq<Service>): map<string, Addr> {
    if svcs == [] then map[]
    else
      var s := svcs[|svcs| - 1];
      var rest := ReservedSoFar(text, subnet, ctx, svcs[..|svcs| - 1]);
      match Verdict(text, subnet, ctx, s)
      case Some(Ok(a)) => rest[MACOf(text, s) := a]
      case _ => rest
  }

  function ProblemsSoFar(text: Text, subnet: Prefix, ctx: seq<Service>, svcs: seq<Service>): seq<Problem> {
    if svcs == [] then []
    else
      var rest := ProblemsSoFar(text, subnet, ctx, svcs[..|svcs| - 1]);
      match Reported(text, subnet, ctx, svcs[|svcs| - 1])
      case Some(p) => rest + [p]
      case None => rest
  }

  function Reserved(text: Text, subnet: Prefix, svcs: seq<Service>): map<string, Addr> {
    ReservedSoFar(text, subnet, svcs, svcs)
  }

  function Problems(text: Text, subnet: Prefix, svcs: seq<Service>): seq<Problem> {
    ProblemsSoFar(text, subnet, svcs, svcs)
  }

  // ----- the three passes -----

  datatype Claim = Claim(name: string, mac: string, addr: Addr, why: Option<Reason>)

  function BidClaim(text: Text, subnet: Prefix, s: Service): Claim {
    match Bid(text, subnet, s)
    case Ok(a) => Claim(s.name, MACOf(text, s), a, None)
    case Err(NetworkOrBroadcast(a)) => Claim(s.name, MACOf(text, s), a, Some(NetworkOrBroadcast(a)))
    case Err(why) => Claim(s.name, MACOf(text, s), NoAddr, Some(why))
  }

  function Claimants(text: Text, svcs: seq<Service>): seq<Service> {
    if svcs == [] then []
    else
      var rest := Claimants(text, svcs[..|svcs| - 1]);
      if MACOf(text, svcs[|svcs| - 1]) == "" then rest else rest + [svcs[|svcs| - 1]]
  }

  // The counter a map of counters holds for a key it may not have met.
  function Tally<K>(m: map<K, nat>, k: K): nat {
    if k in m then m[k] else 0
  }

  function Bump<K(!new)>(m: map<K, nat>, k: K): (r: map<K, nat>)
    ensures forall x :: Tally(r, x) == Tally(m, x) + (if x == k then 1 else 0)
  {
    m[k := Tally(m, k) + 1]
  }

  method SeenIn(text: Text, subnet: Prefix, addresses: seq<string>) returns (seen: set<Addr>)
    ensures seen == Seen(text, subnet, addresses)
  {
    seen := {};
    for i := 0 to |addresses|
      invariant seen == Seen(text, subnet, addresses[..i])
    {
      var addr := text.parse(addresses[i]);
      assert addresses[..i + 1] == addresses[..i] + [addresses[i]];
      if Contains(subnet, Unmap(addr)) {
        seen := seen + {Unmap(addr)};
      }
    }
    assert addresses[..|addresses|] == addresses;
  }

  method ClaimOf(text: Text, subnet: Prefix, svc: Service) returns (c: Claim)
    ensures c == BidClaim(text, subnet, svc)
  {
    c := Claim(svc.name, text.normalize(svc.mac), NoAddr, None);
    var seen := SeenIn(text, subnet, svc.addresses);
    if |seen| == 1 {
      SingletonMember(seen);
      var addr :| addr in seen;
      c := c.(addr := addr);
      if c.addr == NetworkOf(subnet) || c.addr == BroadcastOf(subnet) {
        c := c.(why := Some(NetworkOrBroadcast(c.addr)));
      }
    } else if |seen| == 0 {
      c := c.(why := Some(NoAddress));
    } else {
      c := c.(why := Some(ManyAddresses(|seen|)));
    }
  }

  // First pass: read every bid and count the MACs.
  method ReadBids(text: Text, subnet: Prefix, svcs: seq<Service>) returns (claims: seq<Claim>, byMAC: map<string, nat>)
    ensures |claims| == |Claimants(text, svcs)|
    ensures forall k :: 0 <= k < |claims| ==> claims[k] == BidClaim(text, subnet, Claimants(text, svcs)[k])
    ensures forall m :: m != "" ==> Tally(byMAC, m) == MACClaims(text, svcs, m)
  {
    claims, byMAC := [], map[];
    for i := 0 to |svcs|
      invariant |claims| == |Claimants(text, svcs[..i])|
      invariant forall k :: 0 <= k < |claims| ==> claims[k] == BidClaim(text, subnet, Claimants(text, svcs[..i])[k])
      invariant forall m :: m != "" ==> Tally(byMAC, m) == MACClaims(text, svcs[..i], m)
    {
      assert svcs[..i + 1][..i] == svcs[..i];
      var mac := text.normalize(svcs[i].mac);
      assert forall m ::
        MACClaims(text, svcs[..i + 1], m) == MACClaims(text, svcs[..i], m) + (if mac == m then 1 else 0);
      if mac != "" {
        var c := ClaimOf(text, subnet, svcs[i]);
        claims := claims + [c];
        byMAC := Bump(byMAC, mac);
      }
    }
    assert svcs[..|svcs|] == svcs;
  }

  // What the second pass leaves of a claim: a shared MAC outranks any address problem.
  function AfterMACRule(text: Text, subnet: Prefix, ctx: seq<Service>, s: Service): Claim {
    var n := MACClaims(text, ctx, MACOf(text, s));
    if n > 1 then BidClaim(text, subnet, s).(why := Some(SharedMAC(n))) else BidClaim(text, subnet, s)
  }

  // One claim of the second pass: its final form, and whether it still stands.
  method SettleMAC(text: Text, subnet: Prefix, ghost svcs: seq<Service>, bid: Claim, byMAC: map<string, nat>,
                   ghost s: Service)
    returns (c: Claim, stands: bool)
    requires MACOf(text, s) != "" && bid == BidClaim(text, subnet, s)
    requires forall m :: m != "" ==> Tally(byMAC, m) == MACClaims(text, svcs, m)
    ensures c == AfterMACRule(text, subnet, svcs, s)
    ensures forall a :: StandsFor(text, subnet, svcs, s, a) <==> stands && a == c.addr
  {
    StandsByClaim(text, subnet, svcs, s);
    c := bid;
    if Tally(byMAC, c.mac) > 1 {
      c := c.(why := Some(SharedMAC(Tally(byMAC, c.mac))));
      stands := false;
    } else {
      stands := c.why.None?;
    }
  }

  // Second pass: settle shared MACs, then count addresses over what still stands.
  method SettleMACs(text: Text, subnet: Prefix, ghost svcs: seq<Service>, bids: seq<Claim>, byMAC: map<string, nat>)
    returns (claims: seq<Claim>, byAddr: map<Addr, nat>)
    requires |bids| == |Claimants(text, svcs)|
    requires forall k :: 0 <= k < |bids| ==> bids[k] == BidClaim(text, subnet, Claimants(text, svcs)[k])
    requires forall m :: m != "" ==> Tally(byMAC, m) == MACClaims(text, svcs, m)
    ensures |claims| == |bids|
    ensures forall k :: 0 <= k < |claims| ==> claims[k] == AfterMACRule(text, subnet, svcs, Claimants(text, svcs)[k])
    ensures forall a :: Tally(byAddr, a) == Count(Standing(text, subnet, svcs, a), Claimants(text, svcs))
  {
    ghost var cl := Claimants(text, svcs);
    ClaimantsNamed(text, svcs);
    claims, byAddr := bids, map[];
    for i := 0 to |claims|
      invariant |claims| == |bids|
      invariant forall k :: 0 <= k < i ==> claims[k] == AfterMACRule(text, subnet, svcs, cl[k])
      invariant forall k :: i <= k < |claims| ==> claims[k] == bids[k]
      invariant forall a :: Tally(byAddr, a) == Count(Standing(text, subnet, svcs, a), cl[..i])
    {
      StandingGrows(text, subnet, svcs, cl, i);
      var c, stands := SettleMAC(text, subnet, svcs, claims[i], byMAC, cl[i]);
      claims := claims[i := c];
      if stands {
        byAddr := Bump(byAddr, c.addr);
      }
    }
    assert cl[..|cl|] == cl;
  }

  lemma StandsByClaim(text: Text, subnet: Prefix, ctx: seq<Service>, s: Service)
    requires MACOf(text, s) != ""
    ensures forall a :: StandsFor(text, subnet, ctx, s, a) <==>
      (MACClaims(text, ctx, MACOf(text, s)) <= 1 && BidClaim(text, subnet, s).why.None?
       && BidClaim(text, subnet, s).addr == a)
  {
  }

  lemma StandingGrows(text: Text, subnet: Prefix, ctx: seq<Service>, cl: seq<Service>, i: nat)
    requires i < |cl|
    ensures forall a ::
      Count(Standing(text, subnet, ctx, a), cl[..i + 1]) ==
      Count(Standing(text, subnet, ctx, a), cl[..i]) + (if StandsFor(text, subnet, ctx, cl[i], a) then 1 else 0)
  {
    assert cl[..i + 1][..i] == cl[..i];
  }

  lemma {:induction false} ClaimantsNamed(text: Text, svcs: seq<Service>)
    ensures forall s :: s in Claimants(text, svcs) ==> MACOf(text, s) != "" && s in svcs
  {
    if svcs != [] {
      ClaimantsNamed(text, svcs[..|svcs| - 1]);
    }
  }

  // Services that claim nothing do not count.
  lemma {:induction false} CountClaimants(text: Text, p: Service -> bool, svcs: seq<Service>)
    requires forall s :: p(s) ==> MACOf(text, s) != ""
    ensures Count(p, Claimants(text, svcs)) == Count(p, svcs)
  {
    if svcs != [] {
      CountClaimants(text, p, svcs[..|svcs| - 1]);
      var rest, s := Claimants(text, svcs[..|svcs| - 1]), svcs[|svcs| - 1];
      assert (rest + [s])[..|rest|] == rest;
    }
  }

  lemma {:induction false} OnlyClaimantsMatter(text: Text, subnet: Prefix, ctx: seq<Service>, svcs: seq<Service>)
    ensures ReservedSoFar(text, subnet, ctx, Claimants(text, svcs)) == ReservedSoFar(text, subnet, ctx, svcs)
    ensures ProblemsSoFar(text, subnet, ctx, Claimants(text, svcs)) == ProblemsSoFar(text, subnet, ctx, svcs)
  {
    if svcs != [] {
      OnlyClaimantsMatter(text, subnet, ctx, svcs[..|svcs| - 1]);
      var rest, s := Claimants(text, svcs[..|svcs| - 1]), svcs[|svcs| - 1];
      assert (rest + [s])[..|rest|] == rest;
    }
  }

  lemma VerdictByClaim(text: Text, subnet: Prefix, ctx: seq<Service>, s: Service)
    requires MACOf(text, s) != ""
    ensures var c := AfterMACRule(text, subnet, ctx, s);
      && c.mac == MACOf(text, s) && c.name == s.name
      && Verdict(text, subnet, ctx, s) ==
         if c.why.Some? then Some(Err(c.why.value))
         else if AddressClaims(text, subnet, ctx, c.addr) > 1
         then Some(Err(SharedAddress(AddressClaims(text, subnet, ctx, c.addr), c.addr)))
         else Some(Ok(c.addr))
  {
  }

  // Third pass: settle shared addresses and sort the claims into the two outputs.
  method SortOut(text: Text, subnet: Prefix, svcs: seq<Service>, claims: seq<Claim>, byAddr: map<Addr, nat>)
    returns (out: map<string, Addr>, problems: seq<Problem>)
    requires |claims| == |Claimants(text, svcs)|
    requires forall k :: 0 <= k < |claims| ==> claims[k] == AfterMACRule(text, subnet, svcs, Claimants(text, svcs)[k])
    requires forall a :: Tally(byAddr, a) == AddressClaims(text, subnet, svcs, a)
    ensures out == Reserved(text, subnet, svcs)
    ensures problems == Problems(text, subnet, svcs)
  {
    ghost var cl := Claimants(text, svcs);
    ClaimantsNamed(text, svcs);
    out, problems := map[], [];
    for i := 0 to |claims|
      invariant out == ReservedSoFar(text, subnet, svcs, cl[..i])
      invariant problems == ProblemsSoFar(text, subnet, svcs, cl[..i])
    {
      assert cl[..i + 1][..i] == cl[..i];
      VerdictByClaim(text, subnet, svcs, cl[i]);
      var c := claims[i];
      if c.why.None? && Tally(byAddr, c.addr) > 1 {
        c := c.(why := Some(SharedAddress(Tally(byAddr, c.addr), c.addr)));
      }
      if c.why.None? {
        out := out[c.mac := c.addr];
      } else {
        problems := problems + [Problem(c.name, c.mac, c.why.value)];
      }
    }
    assert cl[..|cl|] == cl;
    OnlyClaimantsMatter(text, subnet, svcs, svcs);
  }

  method Reservations(text: Text, subnet: Prefix, svcs: seq<Service>)
    returns (out: map<string, Addr>, problems: seq<Problem>)
    ensures out == Reserved(text, subnet, svcs)
    ensures problems == Problems(text, subnet, svcs)
  {
    var bids, byMAC := ReadBids(text, subnet, svcs);
    var claims, byAddr := SettleMACs(text, subnet, svcs, bids, byMAC);
    forall a ensures Tally(byAddr, a) == AddressClaims(text, subnet, svcs, a) {
      CountClaimants(text, Standing(text, subnet, svcs, a), svcs);
    }
    out, problems := SortOut(text, subnet, svcs, claims, byAddr);
  }

  // ----- what the outputs are worth -----

  lemma {:induction false} CountOccurs<T>(p: T -> bool, s: seq<T>, i: nat, j: nat)
    requires i < |s| && p(s[i])
    ensures Count(p, s) >= 1
    ensures i < j < |s| && p(s[j]) ==> Count(p, s) >= 2
  {
    var n := |s| - 1;
    if i < n {
      CountOccurs(p, s[..n], i, if j < n then j else i);
    }
  }

  lemma {:induction false} ReservedSource(text: Text, subnet: Prefix, ctx: seq<Service>, svcs: seq<Service>, m: string)
    requires m in ReservedSoFar(text, subnet, ctx, svcs)
    ensures exists i ::
      0 <= i < |svcs| && MACOf(text, svcs[i]) == m &&
      Verdict(text, subnet, ctx, svcs[i]) == Some(Ok(ReservedSoFar(text, subnet, ctx, svcs)[m]))
  {
    var n := |svcs| - 1;
    if Verdict(text, subnet, ctx, svcs[n]) == Some(Ok(ReservedSoFar(text, subnet, ctx, svcs)[m]))
      && MACOf(text, svcs[n]) == m {
    } else {
      ReservedSource(text, subnet, ctx, svcs[..n], m);
      var i :| 0 <= i < n && MACOf(text, svcs[..n][i]) == m
        && Verdict(text, subnet, ctx, svcs[..n][i]) == Some(Ok(ReservedSoFar(text, subnet, ctx, svcs[..n])[m]));
      assert svcs[i] == svcs[..n][i];
    }
  }

  // A winning bid has its MAC and its address to itself.
  lemma WinnerIsAlone(text: Text, subnet: Prefix, svcs: seq<Service>, i: nat, j: nat, a: Addr)
    requires i < |svcs| && j < |svcs| && i != j
    requires Verdict(text, subnet, svcs, svcs[i]) == Some(Ok(a))
    ensures MACOf(text, svcs[j]) != MACOf(text, svcs[i])
    ensures !StandsFor(text, subnet, svcs, svcs[j], a)
  {
    var lo, hi := if i < j then i else j, if i < j then j else i;
    var m := MACOf(text, svcs[i]);
    if MACOf(text, svcs[j]) == m { CountOccurs(HasMAC(text, m), svcs, lo, hi); }
    if StandsFor(text, subnet, svcs, svcs[j], a) { CountOccurs(Standing(text, subnet, svcs, a), svcs, lo, hi); }
  }

  lemma {:induction false} ReservedTarget(text: Text, subnet: Prefix, svcs: seq<Service>, n: nat, i: nat, a: Addr)
    requires i < n <= |svcs| && Verdict(text, subnet, svcs, svcs[i]) == Some(Ok(a))
    ensures MACOf(text, svcs[i]) in ReservedSoFar(text, subnet, svcs, svcs[..n])
      && ReservedSoFar(text, subnet, svcs, svcs[..n])[MACOf(text, svcs[i])] == a
  {
    assert svcs[..n][..n - 1] == svcs[..n - 1];
    if i < n - 1 {
      ReservedTarget(text, subnet, svcs, n - 1, i, a);
      WinnerIsAlone(text, subnet, svcs, i, n - 1, a);
    }
  }

  // The reservation map is exactly the winning bids.
  lemma ReservedExactly(text: Text, subnet: Prefix, svcs: seq<Service>, m: string, a: Addr)
    ensures (m in Reserved(text, subnet, svcs) && Reserved(text, subnet, svcs)[m] == a) <==>
      exists i :: 0 <= i < |svcs| && MACOf(text, svcs[i]) == m && Verdict(text, subnet, svcs, svcs[i]) == Some(Ok(a))
  {
    if m in Reserved(text, subnet, svcs) && Reserved(text, subnet, svcs)[m] == a {
      ReservedSource(text, subnet, svcs, svcs, m);
    }
    if exists i :: 0 <= i < |svcs| && MACOf(text, svcs[i]) == m && Verdict(text, subnet, svcs, svcs[i]) == Some(Ok(a)) {
      var i :| 0 <= i < |svcs| && MACOf(text, svcs[i]) == m && Verdict(text, subnet, svcs, svcs[i]) == Some(Ok(a));
      assert svcs[..|svcs|] == svcs;
      ReservedTarget(text, subnet, svcs, |svcs|, i, a);
    }
  }

  // Each reservation: a named client, and an address of the subnet a device may have, in
  // IPv4 one strictly between its two ends.
  lemma ReservedIsSound(text: Text, subnet: Prefix, svcs: seq<Service>, m: string)
    requires m in Reserved(text, subnet, svcs)
    ensures m != ""
    ensures var a := Reserved(text, subnet, svcs)[m];
      && Contains(subnet, a) && a != NetworkOf(subnet) && a != BroadcastOf(subnet)
      && (subnet.Valid() && a.V4? ==> NetworkOf(subnet).v4 < a.v4 < BroadcastOf(subnet).v4)
  {
    ReservedExactly(text, subnet, svcs, m, Reserved(text, subnet, svcs)[m]);
    var i :| 0 <= i < |svcs| && MACOf(text, svcs[i]) == m
      && Verdict(text, subnet, svcs, svcs[i]) == Some(Ok(Reserved(text, subnet, svcs)[m]));
    if |Seen(text, subnet, svcs[i].addresses)| == 1 { SingletonMember(Seen(text, subnet, svcs[i].addresses)); }
    var a := Reserved(text, subnet, svcs)[m];
    if subnet.Valid() && a.V4? { SubnetIsInterval(subnet, a.v4); }
  }

  lemma ReservedIsOneToOne(text: Text, subnet: Prefix, svcs: seq<Service>, m: string, n: string)
    requires m in Reserved(text, subnet, svcs) && n in Reserved(text, subnet, svcs)
    requires Reserved(text, subnet, svcs)[m] == Reserved(text, subnet, svcs)[n]
    ensures m == n
  {
    var a := Reserved(text, subnet, svcs)[m];
    ReservedExactly(text, subnet, svcs, m, a);
    ReservedExactly(text, subnet, svcs, n, a);
    var i :| 0 <= i < |svcs| && MACOf(text, svcs[i]) == m && Verdict(text, subnet, svcs, svcs[i]) == Some(Ok(a));
    var j :| 0 <= j < |svcs| && MACOf(text, svcs[j]) == n && Verdict(text, subnet, svcs, svcs[j]) == Some(Ok(a));
    if i != j { WinnerIsAlone(text, subnet, svcs, i, j, a); }
  }

  // Every claim is either reserved or reported, never both and never twice: a claimant's
  // MAC has its bid reserved exactly when the report does not name it, and the report has
  // one entry for each claimant it names.
  lemma EachClaimOnce(text: Text, subnet: Prefix, svcs: seq<Service>, i: nat, p: Problem)
    requires i < |svcs| && MACOf(text, svcs[i]) != ""
    ensures var r, m := Reserved(text, subnet, svcs), MACOf(text, svcs[i]);
      m in r && Bid(text, subnet, svcs[i]) == Ok(r[m]) <==> Reported(text, subnet, svcs, svcs[i]) == None
    ensures multiset(Problems(text, subnet, svcs))[p] == Count(ReportedAs(text, subnet, svcs, p), svcs)
    ensures |Reserved(text, subnet, svcs)| + |Problems(text, subnet, svcs)| == |Claimants(text, svcs)|
  {
    var r, m := Reserved(text, subnet, svcs), MACOf(text, svcs[i]);
    if m in r {
      ReservedExactly(text, subnet, svcs, m, r[m]);
      var j :| 0 <= j < |svcs| && MACOf(text, svcs[j]) == m && Verdict(text, subnet, svcs, svcs[j]) == Some(Ok(r[m]));
      if j != i { WinnerIsAlone(text, subnet, svcs, j, i, r[m]); }
    }
    if Reported(text, subnet, svcs, svcs[i]) == None {
      ReservedExactly(text, subnet, svcs, m, Verdict(text, subnet, svcs, svcs[i]).value.value);
    }
    ProblemsCountedBy(text, subnet, svcs, svcs, p, ReportedAs(text, subnet, svcs, p));
    assert svcs[..|svcs|] == svcs;
    ClaimsAddUp(text, subnet, svcs, |svcs|);
  }

  function ReportedAs(text: Text, subnet: Prefix, ctx: seq<Service>, p: Problem): Service -> bool {
    s => Reported(text, subnet, ctx, s) == Some(p)
  }

  lemma {:induction false} ClaimsAddUp(text: Text, subnet: Prefix, svcs: seq<Service>, n: nat)
    requires n <= |svcs|
    ensures |ReservedSoFar(text, subnet, svcs, svcs[..n])| + |ProblemsSoFar(text, subnet, svcs, svcs[..n])|
         == |Claimants(text, svcs[..n])|
  {
    if n > 0 {
      assert svcs[..n][..n - 1] == svcs[..n - 1];
      ClaimsAddUp(text, subnet, svcs, n - 1);
      var m := MACOf(text, svcs[n - 1]);
      if Verdict(text, subnet, svcs, svcs[n - 1]).Some? && Verdict(text, subnet, svcs, svcs[n - 1]).value.Ok?
         && m in ReservedSoFar(text, subnet, svcs, svcs[..n - 1]) {
        ReservedSource(text, subnet, svcs, svcs[..n - 1], m);
        var i :| 0 <= i < n - 1 && MACOf(text, svcs[..n - 1][i]) == m;
        WinnerIsAlone(text, subnet, svcs, n - 1, i, Verdict(text, subnet, svcs, svcs[n - 1]).value.value);
      }
    }
  }

  // ----- the order of the services does not matter -----

  lemma {:induction false} CountIgnoresOrder<T>(p: T -> bool, s: seq<T>, t: seq<T>)
    requires multiset(s) == multiset(t)
    ensures Count(p, s) == Count(p, t)
  {
    if s == [] {
      assert |multiset(t)| == 0;
    } else {
      var n := |s| - 1;
      var k := Sequences.FindLast(s, t);
      CountIgnoresOrder(p, s[..n], t[..k] + t[k + 1..]);
      CountConcat(p, t[..k] + [t[k]], t[k + 1..]);
      CountConcat(p, t[..k], [t[k]]);
      CountConcat(p, t[..k], t[k + 1..]);
    }
  }

  lemma {:induction false} CountConcat<T>(p: T -> bool, s: seq<T>, t: seq<T>)
    ensures Count(p, s + t) == Count(p, s) + Count(p, t)
  {
    if t == [] {
      assert s + t == s;
    } else {
      assert (s + t)[..|s + t| - 1] == s + t[..|t| - 1];
      CountConcat(p, s, t[..|t| - 1]);
    }
  }

  lemma {:induction false} CountExt<T>(p: T -> bool, q: T -> bool, s: seq<T>)
    requires forall x :: x in s ==> p(x) == q(x)
    ensures Count(p, s) == Count(q, s)
  {
    if s != [] {
      CountExt(p, q, s[..|s| - 1]);
    }
  }

  lemma VerdictIgnoresOrder(text: Text, subnet: Prefix, svcs: seq<Service>, tvcs: seq<Service>, s: Service)
    requires multiset(svcs) == multiset(tvcs)
    ensures Verdict(text, subnet, svcs, s) == Verdict(text, subnet, tvcs, s)
  {
    forall m ensures MACClaims(text, svcs, m) == MACClaims(text, tvcs, m) {
      CountIgnoresOrder(HasMAC(text, m), svcs, tvcs);
    }
    forall a ensures AddressClaims(text, subnet, svcs, a) == AddressClaims(text, subnet, tvcs, a) {
      CountExt(Standing(text, subnet, svcs, a), Standing(text, subnet, tvcs, a), svcs);
      CountIgnoresOrder(Standing(text, subnet, tvcs, a), svcs, tvcs);
    }
  }

  lemma {:induction false} ProblemsCountedBy(text: Text, subnet: Prefix, ctx: seq<Service>, svcs: seq<Service>,
                                             p: Problem, f: Service -> bool)
    requires forall s :: f(s) <==> Reported(text, subnet, ctx, s) == Some(p)
    ensures multiset(ProblemsSoFar(text, subnet, ctx, svcs))[p] == Count(f, svcs)
  {
    if svcs != [] {
      ProblemsCountedBy(text, subnet, ctx, svcs[..|svcs| - 1], p, f);
    }
  }

  // Listing the services in another order reserves the same addresses and reports
  // the same problems.
  lemma OrderIsIrrelevant(text: Text, subnet: Prefix, svcs: seq<Service>, tvcs: seq<Service>)
    requires multiset(svcs) == multiset(tvcs)
    ensures Reserved(text, subnet, svcs) == Reserved(text, subnet, tvcs)
    ensures multiset(Problems(text, subnet, svcs)) == multiset(Problems(text, subnet, tvcs))
  {
    ReservedWithin(text, subnet, svcs, tvcs);
    ReservedWithin(text, subnet, tvcs, svcs);
    forall p ensures multiset(Problems(text, subnet, svcs))[p] == multiset(Problems(text, subnet, tvcs))[p] {
      var f := s => Reported(text, subnet, svcs, s) == Some(p);
      forall s ensures f(s) <==> Reported(text, subnet, tvcs, s) == Some(p) {
        VerdictIgnoresOrder(text, subnet, svcs, tvcs, s);
      }
      ProblemsCountedBy(text, subnet, svcs, svcs, p, f);
      ProblemsCountedBy(text, subnet, tvcs, tvcs, p, f);
      CountIgnoresOrder(f, svcs, tvcs);
    }
  }

  lemma ReservedWithin(text: Text, subnet: Prefix, svcs: seq<Service>, tvcs: seq<Service>)
    requires multiset(svcs) == multiset(tvcs)
    ensures forall m :: m in Reserved(text, subnet, svcs) ==>
      m in Reserved(text, subnet, tvcs) && Reserved(text, subnet, tvcs)[m] == Reserved(text, subnet, svcs)[m]
  {
    forall m | m in Reserved(text, subnet, svcs)
      ensures m in Reserved(text, subnet, tvcs) && Reserved(text, subnet, tvcs)[m] == Reserved(text, subnet, svcs)[m]
    {
      var a := Reserved(text, subnet, svcs)[m];
      ReservedExactly(text, subnet, svcs, m, a);
      var i :| 0 <= i < |svcs| && MACOf(text, svcs[i]) == m && Verdict(text, subnet, svcs, svcs[i]) == Some(Ok(a));
      VerdictIgnoresOrder(text, subnet, svcs, tvcs, svcs[i]);
      assert svcs[i] in multiset(tvcs);
      var j :| 0 <= j < |tvcs| && tvcs[j] == svcs[i];
      ReservedExactly(text, subnet, tvcs, m, a);
    }
  }
}
