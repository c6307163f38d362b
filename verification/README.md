# KyDNS, modelled and proved

A Dafny model of the parts of KyDNS where several functions have to agree: the DHCP
lease engine, the zone snapshot and the answers given from it, the response cache, the
configuration store, pull replication between two nodes, the settings of a replica, and
the roles a node can have. Each part is first written as the code works (objects with
fields, loops, transactions), proved against a specification function, and the promises
are then proved about those functions, over every input, run and interleaving.

`dafny verify dfyconfig.toml` checks everything.

## How it is laid out

| files | what they hold |
|---|---|
| `Wrappers`, `Sequences`, `Texts`, `Net`, `Names` | results, sequences, texts split and ordered, IP addresses and prefixes as numbers, domain names as text |
| `Allocator`, `AllocatorFacts`, `GrantOutcomes` | the address pool and its four rules, what every run of it keeps, and what each rule grants |
| `Reservations`, `ReservationOutcomes` | who gets which address reserved, from the service list |
| `LeaseStore`, `DhcpServer`, `LeaseRuns` | the stored lease table, the packet paths, and runs with probes in flight, crashes and writes that come late |
| `RequestOutcomes`, `PacketOutcomes` | what each kind of packet comes to, in terms of its fields |
| `LeaseGuards`, `ProbeRuns`, `NameRuns` | over those runs: what a lease is worth, what a probed address is spared, when names stay apart |
| `DhcpRunner`, `ListenerOutcomes`, `ReservationRefresh` | the listener's lifecycle, and refreshes overtaking each other |
| `Arpa`, `ReverseNames`, `ReverseReads`, `Matcher`, `ViewOutcomes` | reverse names printed and read, and the choice of view by longest prefix |
| `ZoneIndex`, `ZoneSnapshot`, `NameRules` | the layered zone index against one precedence rule, and that rule by position in the lists |
| `Chasing`, `Authoritative`, `NameAnswers` | authoritative answers, and which records they hold |
| `ZoneRename`, `ZoneTexts`, `RenamedAnswers`, `RenamedReplies` | renaming the private zone, seen in records, in the index and in replies |
| `RingList`, `Cache`, `CacheFacts`, `CachedQuestions` | a doubly linked ring, the map-plus-list cache on it, what its runs keep, and the cache by question |
| `Tables`, `StoreFacts`, `StoreSound`, `SnapshotFacts`, `SnapshotReads`, `Listings`, `Store` | the tables with their triggers, every write to them, applying and reading snapshots, the order of queries, and the store object |
| `WriteOutcomes`, `PolicyOutcomes` | what each write leaves, table by table, and when it is refused |
| `Puller`, `PullOutcomes`, `Seeding`, `Replication`, `PollRuns`, `SeedingRuns` | the pull loop, what seeding adds, a primary and a replica step by step, undisturbed polls to their end, and how two nodes come apart at one version |
| `SettingsRules`, `SettingsOutcomes`, `StoredRows`, `ReplicaSettings` | the rules for a settings row, what an accepted row reads back as, and pulls and saves on a replica |
| `Roles` | promotion, joining and restarts |

A method that changes state says in its `ensures` what the new state is, as a function of
the old one: `Allocator.Offer` leaves `Grant(...)`, `Store.PutView` leaves `Perform(...)`,
`Cache.Put` leaves `PutIn(...)`. What those functions come to, without naming them or
their parts, is what the `...Outcomes` files, `NameRules`, `NameAnswers`, `CachedQuestions`
and `ReverseNames` say. Where goroutines or nodes interleave, the model is a
transition system whose steps are those same functions (`LeaseRuns`, `ReservationRefresh`,
`Replication`, `ReplicaSettings`, `Roles`), and the theorems speak of every state of every
behaviour.

## What is assumed, and where it shows

- Clocks are whole seconds handed to each operation; a run's clock never goes back.
- `LeaseRuns`: each locked section of a packet's handler is a step of its own, and packets,
  probe answers, store writes and crashes fall between them in any order. A lease lookup
  and the write it leads to are one step where one lock covers both.
- Disk, network and host answers are parameters: whether a transaction commits, whether a
  reply arrives, whether a probe is answered, whether a socket binds.
- A transaction is one atomic step, and a trigger is part of the statement that fires it.
- `Replication`: the primary has settings and has reached version 1 or later, and replies
  come from the pinned primary. `VersionZeroLooksPulled` shows what happens at version 0.
- `ReplicaSettings`: a replica starts from an accepted row. What it then pulls is any row.
- `StoredRows`: neither parser takes an empty text, and no prefix has a line break.
- `RenamedAnswers`, `RenamedReplies`: records are stored as lower-case full names, CNAME and
  PTR targets too; no record's own name lies in the new zone unless it lies in the old; the
  two zones do not meet the reverse trees; and every host follows, in the exact sense of
  `ZoneRename.SettledHostsExactly`. Where a CNAME leads is not restricted.

## Where the code does something other than it says

- A manual record tagged for a view hides every untagged record in that view, not only
  those of its own name: `ZoneIndex.UntaggedCountsExactly` says when one counts, and
  `ZoneIndex.UnrelatedTagHides` gives two records with which a name answers nothing.
- A lease acknowledged while the client's own probe of the address is still out is dropped
  when that probe is answered: `LeaseGuards.LeaseIsLostExactly` says when a lease is lost,
  and `LeaseGuards.AcknowledgedLeaseMayBeLost` is a run that ends with the address given to
  another client under a live lease.
- The test for an already qualified host is on text, not on labels, so host `vlan` of zone
  `lan.` becomes `vlan.` (`ZoneRename.TextSuffixIsLeftBehind`).
- "An OFFER never weakens a lease" fails for a client on the server's own or the gateway's
  address (`AllocationFacts.OfferMovesClientOffHost`), and exactly where
  `AllocationFacts.OfferWeakensExactly` says.
- A refused REQUEST has already changed the name held in memory, not the stored one, so
  names are not unique across a restart (`NameRuns.NamesMayClashAfterRestart`);
  `NameRuns.NamesUniqueAfterRestartExactly` says when they are.
- A negative ceiling below the floor is accepted (`StoredRows.CeilingMayBeOverrun`) and then
  not kept (`CacheFacts.NegativeCeiling`).
- A negative answer's lifetime is taken from the SOA's MINIMUM alone, where section 5 of
  RFC 2308 takes the lesser of it and the SOA's own TTL: `CacheFacts.NegativeLifetimeExactly`
  and, for one such answer, `CacheFacts.NegativeOutlivesItsSOA`.
- A promotion is tied to its record, not to the live role: a join between the two leaves a
  live primary that reboots as a replica (`Roles.LivePrimaryMayRebootAsReplica`);
  `Roles.BootsAsReplicaExactly` says which boots do.
- An upstream may be accepted and stored with a line break in it, and reads back as its
  lines. Around the upstream the parser trims it off, and the stored row is then refused,
  and the next start with it (internal/app/serve.go:469-474):
  `StoredRows.BrokenUpstreamIsAccepted`. In a fragment, which nothing checks, the lines may
  be upstreams nobody configured: `StoredRows.HiddenUpstreamIsAccepted`.
  `StoredRows.AcceptedRowReadsBackExactly` says which rows are refused and which change. The
  settings API takes such a text as it comes (internal/adminapi/settings.go:20,76-79); the
  settings form cannot hold one. No other list column of an accepted row can break this way.
- A pull looks at no rule, so such a row, read back at the primary, reaches every replica
  and cannot be run there (`ReplicaSettings.BrokenRowArrives`).
- A replica at the primary's version need not share its configuration: it puts shipped lists
  in at its own starts, and an import on the primary, or an older release there, may lack
  one (`SeedingRuns.SeedingMaySetApart`). `Replication.SameVersionSameConfig` says exactly
  when the two are the same, and `Replication.ApartForGood` how long they are not.
- A zone rename leaves a CNAME's target where it was when it already lay in the new zone, and
  the renamed node then answers with what has moved there
  (`RenamedReplies.NewZoneTargetGains`); `RenamedReplies.RepliesMoveExactly` says when.

A cache made with a negative size would never finish evicting
(`CacheFacts.EvictionEndsExactly`); no accepted row asks for one
(`StoredRows.AcceptedCacheEvicts`), so no served cache has one.

## Model

| member | source | states |
|---|---|---|
| Allocation.Allocator.Load | internal/dhcpd/alloc.go:66-74 | the two maps are rebuilt from the list and nothing else of the allocator moves |
| Allocation.Allocator.SetReservations | internal/dhcpd/alloc.go:78-87 | the reservation map is the one given, and the other map inverts it, naming some holder for every reserved address |
| Allocation.Allocator.Allocate | internal/dhcpd/alloc.go:91-94 | the committed grant of the four rules, as new state and as answer; what the rules come to is GrantOutcomes |
| Allocation.Allocator.Offer | internal/dhcpd/alloc.go:101-103 | the tentative grant of the four rules, as new state and as answer; what the rules come to is GrantOutcomes |
| Allocation.Allocator.AllocateEither | internal/dhcpd/alloc.go:105-187 | the four rules in their order, with the differences between an OFFER and a REQUEST, decide what is committed and what is answered |
| Allocation.Allocator.ScanPool | internal/dhcpd/alloc.go:182-186 | the loop finds what the scan specification names and looks at no more addresses than the range holds, also where the range ends at 255.255.255.255 |
| Allocation.Allocator.NameIsTaken | internal/dhcpd/alloc.go:262-272 | true exactly when another client's live lease carries that non-empty name |
| Allocation.Allocator.Release | internal/dhcpd/alloc.go:193-203 | the lease goes only if client and address both name it |
| Allocation.Allocator.Decline | internal/dhcpd/alloc.go:212-224 | only the holder can give an address up, and it is set aside only inside the range |
| Allocation.Allocator.Quarantine | internal/dhcpd/alloc.go:238-242 | the address is set aside for ten minutes and nothing else moves |
| Allocation.Allocator.Leases | internal/dhcpd/alloc.go:245-256 | the result lists exactly the unexpired leases |
| AllocationFacts.GrantKeepsInverse | internal/dhcpd/alloc.go:120-139 | after any grant, tentative or not, the client map and the address map are exact inverses again |
| AllocationFacts.LoadGivesInverse | internal/dhcpd/alloc.go:66-74 | a list that is one-to-one in MAC and in address loads into exact inverses |
| AllocationFacts.RunKeepsInverse | internal/dhcpd/alloc.go:66-242 | on every run of all operations, from loads that are one-to-one, the two maps stay exact inverses |
| AllocationFacts.RunKeepsNamesUnique | internal/dhcpd/alloc.go:110-115 | on every run with a clock that never goes back no two unexpired leases share a name, if no load brought a shared one |
| AllocationFacts.NamesUniqueExactly | internal/dhcpd/alloc.go:258-272 | names are unique after every step of a run if and only if every load brought unique ones |
| AllocationFacts.OfferWeakensExactly | internal/dhcpd/alloc.go:96-103 | an OFFER leaves every other live lease as it was, and keeps address, name and expiry of the caller's own if and only if that is not on the server's or gateway's address, or a reservation can be named instead, or no address is free |
| AllocationFacts.OfferMovesClientOffHost | internal/dhcpd/alloc.go:167-176 | the input: a client on the server's own address is moved by an OFFER and loses its name |
| AllocationFacts.GrantIsSafe | internal/dhcpd/alloc.go:141-187 | a granted address is never the server's or the gateway's, never reserved to somebody else unless it repeats the caller's lease, and under nobody else's live lease unless a REQUEST takes its own reservation |
| AllocationFacts.AllocateCommits | internal/dhcpd/alloc.go:91-94 | a REQUEST's grant is recorded with its full lifetime, and a live lease it removed was on the caller's reservation |
| AllocationFacts.ScanIsLeast | internal/dhcpd/alloc.go:181-186 | if any address is free for the client, the scan returns the least one |
| AllocationFacts.RefusedExactlyWhenExhausted | internal/dhcpd/alloc.go:89-90 | a grant fails if and only if the client has no reservation it may get, no lease to keep, and no address of the range is free for it |
| GrantOutcomes.ReservationIsLeased | internal/dhcpd/alloc.go:141-148 | a REQUEST of a client with a reservation that is not the server's or gateway's address is granted exactly it, whatever it asks for or holds and whoever else holds it, never as new; the lease, its time and name, and everybody else's leases afterwards are spelled out |
| GrantOutcomes.ReservationIsOffered | internal/dhcpd/alloc.go:141-162 | an OFFER names the reservation unless another client's live lease is on it, never as new; a client using another lease only hears of it and nothing changes |
| GrantOutcomes.HoldingIsKept | internal/dhcpd/alloc.go:163-166 | failing that, a client whose lease, run out or not, is on a usable address reserved to nobody gets that address, as new if and only if the lease had run out |
| GrantOutcomes.LeaseInUseIsOffered | internal/dhcpd/alloc.go:167-176 | an OFFER to a client using a lease it may not keep repeats that lease and changes nothing, unless it is on the server's or gateway's address |
| GrantOutcomes.OpenRequestIsGranted | internal/dhcpd/alloc.go:177-180 | failing all of that, an open address asked for is granted, as new |
| GrantOutcomes.LeastOpenIsGranted | internal/dhcpd/alloc.go:181-186 | else the least open address of the range, as new |
| GrantOutcomes.NoneOpenIsRefused | internal/dhcpd/alloc.go:187-187 | and with none open the client is refused and nothing changes |
| Reserve.Reservations | internal/dhcpd/reserve.go:42-120 | the three passes compute the winning bids and the report of the others |
| Reserve.SettleMACs | internal/dhcpd/reserve.go:85-102 | the pass that throws out every claim whose MAC two services name leaves each claim with the verdict of the MAC rule |
| Reserve.SortOut | internal/dhcpd/reserve.go:103-119 | the last pass reserves each surviving claim alone on its address and reports the rest, in order |
| Reserve.ReservedExactly | internal/dhcpd/reserve.go:42-120 | a client holds an address reserved if and only if one service bids it and wins |
| Reserve.ReservedIsSound | internal/dhcpd/reserve.go:50-76 | every reservation names a client and an address inside the subnet, in IPv4 strictly between its network and its broadcast address |
| Reserve.ReservedIsOneToOne | internal/dhcpd/reserve.go:85-119 | no two clients have one address reserved |
| Reserve.EachClaimOnce | internal/dhcpd/reserve.go:42-120 | service by service: a claimant's MAC has its bid reserved if and only if the report does not name it, and each claimant the report names has one entry in it |
| Reserve.OrderIsIrrelevant | internal/dhcpd/reserve.go:42-120 | listing the services in another order gives the same reservations and the same reports |
| ReservationOutcomes.ReservedByPosition | internal/dhcpd/reserve.go:42-120 | an address is reserved for a MAC if and only if one service of the list has the MAC, no other service shares it, the address is the one address in the subnet it lists and no end of the subnet, and no other service with a MAC of its own wants it so |
| ReservationOutcomes.ReasonByPosition | internal/dhcpd/reserve.go:65-119 | a service with a MAC is reported if and only if it wins nothing, and for which reason: a shared MAC first, then no address or several, then an end of the subnet, last an address others want |
| LeaseStore.Table.PutDHCPLease | internal/store/dhcplease.go:31-50 | the address's other row goes and the client's row is written, together or not at all |
| LeaseStore.Table.DeleteExpiredDHCPLeases | internal/store/dhcplease.go:61-68 | exactly the rows that have run out are dropped |
| LeaseStore.TableStaysOneToOne | internal/store/dhcplease.go:31-50 | after any writes the table has one row per MAC and one per address |
| LeaseStore.TableIsTheLedger | internal/store/dhcplease.go:31-68 | a row is in the table if and only if it is the last write for its client and no later write took its address, deleted it or let it lapse |
| DhcpServer.Server.Restore | internal/dhcpd/server.go:208-227 | the allocator starts from exactly the stored rows that have not run out |
| DhcpServer.Server.Handle | internal/dhcpd/server.go:231-294 | one packet handled alone: each kind changes memory and table as specified, a RELEASE or DECLINE counts only from its client, a foreign server's answers are ignored by transaction |
| DhcpServer.Server.Offer | internal/dhcpd/server.go:296-304 | one handler run alone: an OFFER is the tentative grant, taken a second time when the probe finds the first in use |
| DhcpServer.Server.Ack | internal/dhcpd/server.go:306-341 | a REQUEST commits in memory first, and is stored and acknowledged only if it got the address it named |
| LeaseRuns.AckIsExact | internal/dhcpd/server.go:306-341 | a REQUEST naming an address is acknowledged with exactly it or refused (section 4.3.2 of RFC 2131), and what is acknowledged lies in the subnet and is nobody else's unless reserved to the caller |
| RequestOutcomes.AcknowledgedExactly | internal/dhcpd/server.go:306-341 | a REQUEST is acknowledged with an address if and only if the four rules hold that address ready for the client, and the requested-address option if present, else the client's own address field if present, names exactly it and it lies in the subnet |
| RequestOutcomes.RequestIsRemembered | internal/dhcpd/server.go:306-341 | with an address outside the subnet in the field that counts memory is as it was; any other REQUEST leaves the client with what the rules hold ready, acknowledged or refused |
| RequestOutcomes.RenewalIsAcknowledged | internal/dhcpd/server.go:411-423 | a client renewing by its own address field is acknowledged if and only if that is the address held ready for it, so whenever it may keep it or has it reserved |
| PacketOutcomes.AcknowledgedRow | internal/dhcpd/server.go:327-338 | the row stored for an acknowledgement: address, name unless another live lease has it, expiry after the full lease time, seen now |
| RequestOutcomes.FirstOffer | internal/dhcpd/server.go:349-358 | a DISCOVER takes a hold of one minute, and is offered it unless the address is new and answers a probe |
| RequestOutcomes.SecondOffer | internal/dhcpd/server.go:359-370 | else that address is set aside for ten minutes and the client is offered its reservation if the lease in its way has run out, or the least address open by then save that one, or nothing |
| PacketOutcomes.ReleaseEndsExactly | internal/dhcpd/server.go:254-264 | a RELEASE ends the sender's lease if and only if it names this server and the leased address; nobody else's moves |
| PacketOutcomes.DeclineEndsExactly | internal/dhcpd/server.go:265-288 | a DECLINE ends it if and only if it names the leased address, which is set aside for ten minutes if it is in the range |
| PacketOutcomes.StrangerEndsNothing | internal/dhcpd/server.go:254-288 | from a client without a lease neither changes anything |
| LeaseRuns.ReservationsFeedTheRules | internal/app/dhcp.go:154-160 | what is derived from the service list meets every assumption the allocator's safety rests on |
| ProbeRuns.ProbedAddressIsNotOffered | internal/dhcpd/server.go:349-370 | once the handler lets go of an address that answered its probe, nothing that client is sent names it while it is set aside, whatever else happens meanwhile, unless it is reserved to the client |
| LeaseRuns.InvHolds | internal/dhcpd/server.go:208-370 | on every run, each locked section of a handler a step of its own and probes, store writes and crashes falling anywhere between, the maps stay inverse, the reservations sound and the table the ledger of what was persisted |
| LeaseRuns.RestartRestoresTheLedger | internal/dhcpd/server.go:205-227 | when a listener starts, whatever was lost before, a client holds a lease if and only if its last persisted acknowledgement still stands and has not run out |
| LeaseGuards.LeaseIsLostExactly | internal/dhcpd/server.go:356-367 | while a lease runs, and no packet of its own client or REQUEST of its address's reserver comes, it is kept throughout if and only if no probe of that client for the address, begun before it, is answered and then let go of it |
| LeaseGuards.LiveLeaseIsGuarded | internal/dhcpd/alloc.go:141-187 | so it keeps address and name through everything else if none of its own probes for the address is in flight when it starts, or each that is finds it not in use |
| LeaseGuards.StepTellsExactly | internal/dhcpd/server.go:356-367 | one step tells another client to use the address if and only if it ends that client's own earlier probe of it unanswered |
| LeaseGuards.NobodyElseIsToldToUseIt | internal/dhcpd/server.go:231-370 | while the client keeps it, no OFFER and no ACK names the address to anyone else, if no other probe of it was out when the lease started |
| LeaseGuards.AcknowledgedLeaseMayBeLost | internal/dhcpd/server.go:356-367 | the run: a lease acknowledged while the client's first probe is out is dropped when that is answered, and after ten minutes the address is another client's under it |
| LeaseGuards.AcknowledgementOutlivesRestart | internal/dhcpd/server.go:205-227 | an acknowledgement that reached the table, stands and has not run out is held again after a restart, and until it runs out nobody else is told the address, a client with a reservation on it apart |
| NameRuns.NamesUniqueAfterRestartExactly | internal/dhcpd/server.go:205-227 | names are unique right after a start if and only if no two persisted and still standing acknowledgements share one |
| NameRuns.NamesSurviveATidyRun | internal/dhcpd/server.go:306-341 | they are after any run in which writes land in order, no REQUEST is refused after it changed memory, and no probe lets go of a stored lease |
| NameRuns.NamesMayClashAfterRestart | internal/dhcpd/server.go:314-326 | the run: a refused REQUEST renames a client in memory only, and a restart brings one name back twice |
| DhcpRunner.BuiltPoolIsInSubnet | internal/app/dhcp.go:271-279 | a listener that could be built serves a pool lying wholly in its subnet |
| DhcpRunner.AcceptedPoolIsBounded | internal/settings/validate.go:141-150 | for accepted settings that pool is in order and holds at most 65536 addresses |
| DhcpRunner.ReconcileIsIdempotent | internal/app/dhcp.go:89-109 | reconciling the same settings again leaves the listener alone whatever the host says |
| DhcpRunner.DhcpRunner.Reconcile | internal/app/dhcp.go:111-179 | the locked body: which listener is up afterwards, armed with which reservations before it binds, and why not otherwise |
| DhcpRunner.DhcpRunner.RefreshBegin | internal/app/dhcp.go:377-384 | the first locked section numbers the refresh and remembers the listener |
| DhcpRunner.DhcpRunner.RefreshPublish | internal/app/dhcp.go:390-404 | the second publishes reservations and report together, and only while listener and number are still the ones remembered |
| ListenerOutcomes.BuiltExactly | internal/app/dhcp.go:249-304 | a listener can be built if and only if the interface serves, range, gateway and any second resolver read as addresses, the range lies in the subnet, and a probe that is due found no other server or one is allowed; what it serves column by column, lease time and gateway included |
| ListenerOutcomes.UnwantedOutcome | internal/app/dhcp.go:115-119 | off, without an interface or on a replica nothing is up afterwards, and only the replica says why |
| ListenerOutcomes.SameOutcome | internal/app/dhcp.go:120-135 | a listener that would come out the same stays as it is and no refusal stands |
| ListenerOutcomes.StartOutcome | internal/app/dhcp.go:136-179 | otherwise one starts if and only if the services were read, it can be built and it binds, with the reservations of those services; if not, what was up stays, save where the new one did not bind |
| ListenerOutcomes.RefreshOutcome | internal/app/dhcp.go:390-404 | a refresh is published if and only if its listener is still up and no later refresh has begun |
| ReservationRefresh.AtRestTheListShows | internal/app/dhcp.go:97-179 | with any overlap of registry writes, refreshes and rebuilds, once all have ended and the newest refresh could read the list, reservations and report are both those of the current list |
| ReservationRefresh.AlwaysArmed | internal/app/dhcp.go:154-160 | at every moment a listener that is up holds the reservations of some service list there has been, resolved against its own subnet |
| ReservationRefresh.StatusIsHonest | internal/app/dhcp.go:111-179 | at every moment the status gives no reason if and only if the listener that is up runs the settings of the last reconcile; where those want none, or on a replica, nothing is up |
| ReservationRefresh.ListenerLeavesExactly | internal/app/dhcp.go:111-179 | a step takes a serving listener down or replaces it if and only if it reconciles settings that want none, or others that can be built; no refusal and no refresh does |
| Arpa.RenderV6 | internal/zone/snapshot.go:238-243 | the nibble loop spells the reverse name |
| Arpa.JoinGroups | internal/dnsserver/auth.go:234-246 | the loop joins reversed nibbles into groups of four |
| Arpa.ReadingUndoesPrinting | internal/zone/snapshot.go:231-244 | reading a printed reverse name gives the address back, in IPv4 form if it was a mapped one (section 3.5 of RFC 1035, section 2.5 of RFC 3596) |
| Arpa.RoundTripExactly | internal/dnsserver/auth.go:220-249 | so the address itself comes back if and only if it is not a mapped one |
| Arpa.PrintingIsInjective | internal/zone/snapshot.go:231-244 | two addresses share a reverse name only if they are one address |
| Arpa.PrintedIsNormal | internal/zone/snapshot.go:231-244 | a printed name is lower-case, fully qualified and under its own tree |
| ReverseNames.QuadName | internal/zone/snapshot.go:231-236 | the reverse name of a.b.c.d, mapped into IPv6 or not, is d.c.b.a in decimal under in-addr.arpa. (section 3.5 of RFC 1035) |
| ReverseNames.NibbleName | internal/zone/snapshot.go:237-243 | that of any other IPv6 address is its 32 hexadecimal digits, last first, each followed by a dot, under ip6.arpa. (section 2.5 of RFC 3596) |
| ReverseReads.ReadExactly | internal/dnsserver/auth.go:220-249 | a name with plain labels is read as an address if and only if it is what the address prints as, up to case and the dot at the end |
| Matcher.NewMatcher | internal/zone/matcher.go:26-52 | views are accepted if and only if no two claim one network; the table is their claims, sorted |
| Matcher.Match | internal/zone/matcher.go:55-68 | the scan returns the first entry that holds the address |
| Matcher.MatchIsLongest | internal/zone/matcher.go:55-68 | on an accepted table that is the one longest prefix holding the address, and the default view if there is none |
| Matcher.ViewsIgnoreOrder | internal/zone/matcher.go:26-68 | listing views or subnets in another order changes neither acceptance nor any match |
| ViewOutcomes.AcceptedByPosition | internal/zone/matcher.go:26-52 | views are accepted if and only if every subnet typed reads as a prefix and no two, of one view or several, are the same without their host bits |
| ViewOutcomes.SeenByPosition | internal/zone/matcher.go:55-68 | a client sees the view of the closest subnet typed that holds its address, there being one whenever any does, and the default view otherwise |
| ZoneIndex.PickLoop | internal/zone/snapshot.go:79-93 | the tagged entries if there are any, else the untagged, over the whole list |
| ZoneIndex.UntaggedCountsExactly | internal/zone/snapshot.go:79-93 | an untagged record counts in a named view if and only if no record of the whole list, of whatever name, is tagged with that view |
| ZoneIndex.UnrelatedTagHides | internal/zone/snapshot.go:79-93 | the input: of two records of different names, one tagged for a view, the untagged one answers in the default view and not in that view |
| ZoneIndex.LeaseLayer | internal/zone/snapshot.go:100-108 | the first layer answers each name and each reverse key as its last lease says |
| ZoneIndex.ServiceLayer | internal/zone/snapshot.go:119-164 | written over it, each name and key a service claims answers as the last claiming one says |
| ZoneIndex.ManualLayer | internal/zone/snapshot.go:169-188 | written over that, each name with manual records answers them in order, and each manual PTR its last value |
| ZoneIndex.BuildIndex | internal/zone/snapshot.go:95-204 | the layered build equals the precedence rule at every name and key, and is accepted if and only if no name mixes a CNAME with anything |
| ZoneSnapshot.Build | internal/zone/snapshot.go:51-75 | every view's index follows the rule, and any refusal refuses the whole snapshot |
| ZoneSnapshot.LookupFollowsTheRule | internal/zone/snapshot.go:248-263 | what is looked up is the rule for the effective view: manual records in order if any, else the last service, else the last lease |
| ZoneSnapshot.LookupIsWellFormed | internal/zone/snapshot.go:190-202 | in an accepted snapshot a name holds one CNAME alone or no CNAME at all (section 3.6.2 of RFC 1034) |
| NameRules.ManualRecordsAnswer | internal/zone/snapshot.go:169-188 | by position in the record list: the answer is one record for each manual record of the name that counts in the view, in order, with its kind and lower-cased value, and services and leases are asked only if there are none |
| NameRules.ServiceAnswers | internal/zone/snapshot.go:119-147 | then the last service in the list that has an address for the view and the name, its own or an alias, gives its proxy if routed through one, else exactly its addresses for the view in order, A or AAAA as they read |
| NameRules.LeasesAnswer | internal/zone/snapshot.go:100-108 | then the last lease of the name gives its address; a name with none has no answer |
| NameRules.PTRRecordIsTarget | internal/zone/snapshot.go:170-175 | a reverse key points where the last PTR record at it that counts says |
| NameRules.ServiceIsTarget | internal/zone/snapshot.go:149-163 | else at the full name of the last service with an address for the view, in a reverse zone, that prints as the key, proxied or not |
| NameRules.LeaseIsTarget | internal/zone/snapshot.go:105-107 | else at that of the last lease with such an address, or nowhere |
| NameRules.QualifyExactly | internal/zone/snapshot.go:213-219 | a name is full if its text ends like the zone, else the zone is put after it; case, one dot at the end, and doing it twice make no difference |
| Chasing.ChaseIsAChain | internal/dnsserver/auth.go:179-198 | a chase is a chain: each CNAME owned by the target before it and taken from the snapshot, at most nine, then all the last target's addresses of the asked type where it is ours to follow, and nothing else |
| Chasing.CyclesEnd | internal/dnsserver/auth.go:177-198 | chasing any cycle ends, after exactly the CNAMEs the depth allows and with no address |
| Authoritative.Authority.SetReverseZones | internal/dnsserver/auth.go:57-63 | the zones are stored masked, in order |
| Authoritative.Authority.Answer | internal/dnsserver/auth.go:114-175 | the reply for every kind of question, or none for a name that is not ours |
| Authoritative.CNAMEAnswerIsAChain | internal/dnsserver/auth.go:153-198 | over an accepted snapshot every CNAME answer is such a chain from the name asked for |
| Authoritative.NameErrorFollowsTheRule | internal/dnsserver/auth.go:114-175 | over an accepted snapshot a name of ours is answered NXDOMAIN if and only if no manual record, service or lease gives it anything in the view that counts |
| NameAnswers.AddressesAreAnswered | internal/dnsserver/auth.go:153-175 | over an accepted snapshot, a name of ours other than the apex without a CNAME is answered with exactly one record for each of the rule's A records (types A and ANY) and AAAA records (types AAAA and ANY), in order, under the name and with their values; the SOA comes along if and only if there is none, NXDOMAIN if and only if the rule gives nothing |
| NameAnswers.ServiceIsAnswered | internal/dnsserver/auth.go:166-217 | so a name only services have is answered with exactly the addresses of the last one, for the view and of the family asked for, in order |
| NameAnswers.TargetIsAnswered | internal/dnsserver/auth.go:140-151 | a PTR question is answered with exactly the full name its key points at, or NXDOMAIN |
| NameAnswers.ApexIsAnswered | internal/dnsserver/auth.go:125-138 | the apex answers SOA and NS questions with those records and every other with none and the SOA |
| NameAnswers.ForwardNameIsOwnedExactly | internal/dnsserver/auth.go:65-76 | outside the reverse trees a name gets a reply if and only if it is the zone or labels in front of it, up to case and the dot at the end |
| NameAnswers.ReverseNameIsOwned | internal/dnsserver/auth.go:77-93 | inside them, its labels plain, also if and only if it is what an address of a reverse zone prints as in its own family |
| Authoritative.ReverseNameIsOwnedExactly | internal/dnsserver/auth.go:65-93 | a printed reverse name is ours if and only if it is a name of the private zone or a reverse zone holds its address; for a private zone apart from the reverse trees the address alone decides |
| Authoritative.DerivedPTRIsServed | internal/dnsserver/auth.go:72-93 | so every derived PTR of an address that is not a mapped one can be asked for |
| ZoneRename.RenameIsMove | internal/store/settings.go:142-160 | on stored names the rename is the move of the old suffix to the new one, reported exactly for names of the old zone |
| ZoneRename.RenameIsUndone | internal/store/settings.go:139-160 | whatever the spelling, the reverse rename gives the stored form back |
| ZoneRename.RenameIsInjective | internal/store/settings.go:142-160 | two names of the zone end up equal only if they were one name |
| ZoneRename.HostFollowsExactly | internal/zone/snapshot.go:213-219 | a host qualified in the new zone is its old name moved if and only if its text does not end like either zone, or like both |
| ZoneRename.SettledHostsExactly | internal/zone/snapshot.go:213-219 | it also lands on no name that was in the new zone already if and only if its text ends like neither zone, or like both while lying in neither |
| ZoneRename.TextSuffixIsLeftBehind | internal/zone/snapshot.go:213-219 | host vlan of zone lan. is the one left behind |
| ZoneTexts.SuffixExactly | internal/store/settings.go:129-137 | a private domain as typed, with space and dots around it, becomes the zone of its lower-cased text with one dot at the end |
| ZoneTexts.NothingIsNoZone | internal/store/settings.go:129-137 | a text of space and dots alone is no zone |
| RenamedAnswers.ForwardAnswersMove | internal/store/settings.go:162-217 | every name of the old zone, and every name outside both, answers after the rename its old records with owner and CNAME target moved |
| RenamedAnswers.ReverseAnswersMove | internal/zone/snapshot.go:147-175 | every reverse entry points where it pointed, moved |
| RenamedAnswers.OldNamesAreGone | internal/store/settings.go:162-166 | a name of the old zone answers nothing any more |
| RenamedAnswers.AcceptanceMoves | internal/zone/snapshot.go:190-202 | the renamed configuration is accepted if and only if the old one was |
| RenamedReplies.RepliesMove | internal/dnsserver/auth.go:114-198 | every question, moved, gets the old reply from the renamed node with every name in it moved, CNAME chains included, and behind a chain that ended at a name of the new zone what the chase finds there now |
| RenamedReplies.RepliesMoveExactly | internal/dnsserver/auth.go:153-198 | the reply is the old one moved and no more if and only if the old chain does not end, uncut by depth or by the type asked for, at a name of the new zone at whose place the old zone has an address of that type or a CNAME |
| RenamedReplies.NewZoneTargetGains | internal/registry/registry.go:176-180 | the input: a CNAME to where another name of the zone will be after the move answers alone before, and with the address behind it after |
| StoreObject.Store.PutSettingsRenamingZone | internal/store/settings.go:162-217 | settings and records are written together or not at all, and the records are the old ones moved |
| RingList.List.PushFront | internal/dnsserver/cache.go:131-131 | a new element comes first in the ring, the others keep their order |
| RingList.List.MoveToFront | internal/dnsserver/cache.go:82-82 | the element comes first, the others keep their order |
| RingList.List.Remove | internal/dnsserver/cache.go:181-187 | exactly that element leaves the ring |
| Cache.Cache.Lookup | internal/dnsserver/cache.go:69-99 | a hit moves the entry to the front and ages a copy, an entry past its time is dropped; map and list stay in agreement |
| Cache.Cache.Put | internal/dnsserver/cache.go:103-135 | the entry is stored newest and the oldest leave until the limit holds; a lifetime of 0 changes nothing |
| Cache.Cache.Retune | internal/dnsserver/cache.go:168-179 | new limits evict down to size and leave stored entries as they are |
| Cache.Cache.Flush | internal/dnsserver/cache.go:189-194 | nothing is left |
| CacheFacts.NeverOverLimit | internal/dnsserver/cache.go:132-134 | on every run the cache holds no more than its limit |
| CacheFacts.HoldsTheLastPut | internal/dnsserver/cache.go:103-135 | every entry held is the last one stored under its key |
| CacheFacts.HitIsTheLastPutAged | internal/dnsserver/cache.go:69-99 | a hit is the last message stored for the key, unexpired, with every TTL but OPT's the stored one less the age and at least 1 |
| CachedQuestions.KeysAgreeExactly | internal/dnsserver/cache.go:57-59 | two questions share an entry if and only if they have one type, one DO flag, and names equal letter by letter up to ASCII case and the dot at the end |
| CachedQuestions.HoldsTheLastAnswer | internal/dnsserver/cache.go:103-135 | an entry held is the last answer stored to such a question and to no other, with no flush since |
| CachedQuestions.HitIsTheLastAnswer | internal/dnsserver/cache.go:69-99 | a hit is the last answer stored to that question and to no other, record by record as it came but with what is left of its lifetime, at least a second, as the TTL of all but OPT |
| CachedQuestions.HitExactly | internal/dnsserver/cache.go:69-81 | a question is a hit if and only if an answer to it is held that has not run out |
| CachedQuestions.AskingKeepsExactly | internal/dnsserver/cache.go:69-82 | asking drops the answer to that question if it has run out and loses nothing else; a hit comes to the front |
| CachedQuestions.StoringKeepsExactly | internal/dnsserver/cache.go:107-134 | a stored answer comes to the front over any to the same question, and pushes out another if and only if the cache is full and held none to it: then exactly the last |
| CachedQuestions.ResizingKeepsExactly | internal/dnsserver/cache.go:168-179 | resizing keeps the most recently used entries, as many as fit and at least one |
| CachedQuestions.PositiveLifetimeExactly | internal/dnsserver/cache.go:146-163 | an answer with records is kept for the least of their TTLs put within the limits, and outlives that record if and only if the floor is above it |
| CachedQuestions.NegativeLifetime | internal/dnsserver/cache.go:137-145 | one without is kept for the MINIMUM of its first SOA put within the limits for such, and not at all without one |
| CacheFacts.OrderedByLastUse | internal/dnsserver/cache.go:69-135 | the list is always in order of last use |
| CacheFacts.EvictedIsLeastRecent | internal/dnsserver/cache.go:128-134 | what a store pushes out was used less recently than everything it leaves |
| CacheFacts.EvictionEndsExactly | internal/dnsserver/cache.go:132-134 | the eviction loop ends if and only if the limit is not negative |
| CacheFacts.NegativeCeiling | internal/dnsserver/cache.go:137-163 | a negative answer stays within the negative ceiling if and only if the floor is not above it or the zone's MINIMUM reaches the floor (section 5 of RFC 2308) |
| CacheFacts.NegativeLifetimeExactly | internal/dnsserver/cache.go:137-145 | a negative answer is kept no longer than the lesser of the SOA's MINIMUM and its TTL (section 5 of RFC 2308) if and only if the floor is not above MINIMUM, and MINIMUM or the ceiling is not above that TTL |
| CacheFacts.NegativeOutlivesItsSOA | internal/dnsserver/cache.go:137-145 | the input: an SOA with 60 seconds to live and a MINIMUM of 300 is kept for 300 |
| StoredRows.CeilingMayBeOverrun | internal/settings/validate.go:65-86 | an accepted row, whatever else is in it, under which a negative answer is kept ten times the ceiling |
| StoredRows.AcceptedCacheEvicts | internal/settings/validate.go:65-83 | no accepted row gives a size below 1, so with one every eviction ends |
| StoreObject.InsertKeys | internal/store/store.go:464-471 | a row per key, or none of them and an error if and only if a key is repeated or taken |
| StoreObject.PutViewIn | internal/store/store.go:457-473 | the view's subnets are replaced, refused if another view claims one |
| StoreObject.PutServiceIn | internal/store/store.go:542-586 | the service's row, addresses and aliases are replaced, with each of the ways it can be refused |
| StoreObject.ReplaceAllIn | internal/store/store.go:902-930 | the registry is wiped and rewritten, or the first refusal stops it |
| WriteOutcomes.PutViewOutcome | internal/store/store.go:457-473 | a view, there already or not, is put if and only if it names no subnet twice and none another view claims; then it has exactly these subnets and every other view its own |
| WriteOutcomes.DeleteViewOutcome | internal/store/store.go:504-522 | a view is dropped, with its subnets and nothing else, if and only if it is there and no address and no record is tagged with it |
| WriteOutcomes.InsertServiceOutcome | internal/store/store.go:542-586 | a new service is put if and only if its name is free, its addresses' views are there and its aliases are free; then its row, addresses in order and aliases are exactly those handed over, and every other service keeps its own |
| WriteOutcomes.EditServiceOutcome | internal/store/store.go:556-586 | an existing one is replaced if and only if its new name is its own or free and what hangs on it fits; then row, addresses in order and aliases are exactly those handed over, a different old name is gone with its rows, and every other service keeps its own |
| WriteOutcomes.StaleServiceOutcome | internal/store/store.go:556-584 | replacing one that is gone changes nothing, and is refused if and only if something hangs on it |
| WriteOutcomes.DeleteServiceOutcome | internal/store/store.go:681-690 | a service is deleted, with its addresses and aliases and nothing else, if and only if it is there |
| PolicyOutcomes.PutRecordOutcome | internal/store/store.go:707-714 | a record is put last, under a number above the others, if and only if its view is there |
| PolicyOutcomes.DeleteRecordOutcome | internal/store/store.go:734-743 | exactly the record with the number goes and the others keep their order |
| PolicyOutcomes.PutSettingsOutcome | internal/store/settings.go:94-127 | each of the columns holds what was handed over for it, and the version rises if and only if one of the thirteen shared ones moved |
| PolicyOutcomes.RenamingOutcome | internal/store/settings.go:162-217 | a save with a renamed zone does the same, and every record keeps its place, number, kind and view |
| PolicyOutcomes.PutDHCPOutcome | internal/store/settings.go:65-86 | the eight DHCP columns are saved if and only if there is a row, and no other moves |
| StoreObject.ApplyLists | internal/store/blacklist.go:247-280 | definitions are matched to rows by name, in order |
| StoreObject.ReplaceBlacklistDefinitionsIn | internal/store/blacklist.go:221-301 | settings, lists and rules are replaced inside the transaction |
| PolicyOutcomes.InsertListOutcome | internal/store/blacklist.go:103-116 | a new list is put, with nothing downloaded, if and only if its name is free |
| PolicyOutcomes.EditListOutcome | internal/store/blacklist.go:117-131 | an existing one is edited if and only if it is there and its new name is its own or free; its definition is the one handed over save for being built in, what was downloaded stays, a different old name is gone |
| PolicyOutcomes.DownloadOutcome | internal/store/blacklist.go:134-150 | a download replaces body and bookkeeping of its list and nothing else |
| PolicyOutcomes.AttemptOutcome | internal/store/blacklist.go:152-166 | a failed attempt notes error and time, one that found nothing new notes the time as good; body and definition stay |
| PolicyOutcomes.RuleOutcome | internal/store/blacklist.go:196-216 | a rule is put if and only if its domain has none and deleted if and only if it has one; no other moves |
| PolicyOutcomes.ImportOutcome | internal/store/blacklist.go:338-372 | an import leaves exactly its rules and block settings and moves nothing but the policy |
| StoreObject.MoveRows | internal/store/settings.go:198-215 | exactly the records the rename touches are written, one by one |
| StoreObject.Store.ApplySnapshot | internal/store/store.go:948-991 | all replicated state is replaced in one transaction, and on failure nothing is changed |
| StoreObject.Store.PutDHCPSettings | internal/store/settings.go:58-86 | the save succeeds if and only if there is a row and the commit does; then the row has these eight columns and its other seventeen as before, and no other table, no version and nothing shared has moved; else nothing has |
| StoreObject.Store.PutBlacklistList | internal/store/blacklist.go:100-131 | a definition is written under its name, new or not, and what was downloaded for the list stays with it |
| StoreObject.Store.ReplaceBlacklist | internal/store/blacklist.go:303-373 | the downloads are read first, address by address, then the whole policy is replaced in one transaction |
| StoreFacts.ImportKeepsDownloads | internal/store/blacklist.go:303-373 | an import leaves exactly the lists it names, each with what some list had downloaded from its address when the downloads were read, whatever has changed since, and empty where none had |
| StoreObject.Store.FollowPrimary | internal/store/peer.go:119-140 | the pin is set and the promotion dropped together or not at all |
| StoreObject.Store.Views | internal/store/store.go:475-502 | the query lists every view once with exactly its subnets, views by name and subnets in order |
| StoreObject.Store.Services | internal/store/store.go:615-679 | the query lists every service once, by name, with its addresses in row order and exactly its aliases in order |
| Listings.SameConfigSameLists | internal/store/store.go:475-679 | nodes that share a configuration list the same views and services in the same order |
| StoreFacts.EveryWriteBumps | internal/store/store.go:181-258 | the version never goes back, and every write that changes what replicas share raises it in the same transaction |
| WriteOutcomes.SameConfigExactly | internal/store/store.go:181-258 | what sharing one configuration means, table by table and column by column |
| StoreFacts.NodeWritesAreQuiet | internal/store/store.go:223-258 | a write to node-local columns leaves the version, and what is shared, alone |
| StoreFacts.SnapshotRises | internal/store/store.go:948-991 | applying a snapshot always raises this node's own version |
| StoreFacts.StoredTextSurvives | internal/store/settings.go:9-21 | a row read and written back is the same row, list columns included |
| StoreFacts.ListSurvivesExactly | internal/store/settings.go:9-21 | a list comes back as it went in if and only if it is nil, or has entries that are not the single empty one and hold no line break |
| StoredRows.AcceptedRowReadsBackExactly | internal/store/settings.go:9-21 | an accepted row read back from the database is accepted if and only if every line of every upstream is one, and otherwise nothing can be built from it; it has the entries it went in with, and runs the same, if and only if no upstream holds a line break |
| StoredRows.BrokenUpstreamIsAccepted | internal/upstream/parse.go:60-74 | the input: an upstream followed by a line break, which its parser trims off, is accepted and stored, and the stored row refused |
| StoredRows.HiddenUpstreamIsAccepted | internal/upstream/parse.go:76-98 | the input: a line break in an upstream's fragment, which its parser does not look at, is accepted and stored, and the stored row accepted as two upstreams, the second in the clear |
| StoreSound.EveryWriteKeepsSound | internal/store/store.go:24-64 | no write leaves a subnet, alias, address or record referring to a view or service that is gone |
| SnapshotFacts.ApplyGivesTheSnapshot | internal/store/store.go:944-991 | after an apply the shared configuration is exactly the snapshot's, whatever was there |
| SnapshotFacts.ApplyKeepsLocalColumns | internal/store/store.go:957-983 | the twelve node-local columns and the node's own bookkeeping stay |
| SnapshotFacts.BodyKeptExactly | internal/store/blacklist.go:247-287 | a list's download survives if and only if the list is still named and no incoming entry of that name carries another URL |
| SnapshotFacts.ApplyIsIdempotent | internal/store/store.go:944-991 | an accepted snapshot is accepted again and then changes nothing but the version and row numbers, downloads included |
| SnapshotReads.WhatWasReadIsShared | internal/store/store.go:944-991 | a snapshot read from one sound configuration is accepted by every node, which then shares exactly that configuration |
| Pulling.Puller.constructor | internal/replica/puller.go:107-123 | the version held at start is the recorded one if it was recorded for the pinned primary, else 0 |
| Pulling.Puller.Tick | internal/replica/puller.go:142-184 | every way a tick can end before a pull, with backoff, health and connection, and when it goes on to pull |
| Pulling.Puller.Land | internal/replica/puller.go:186-206 | what is refused unread, and that a failed apply leaves the version held |
| Pulling.Puller.Record | internal/replica/puller.go:207-216 | the version is recorded under the pin in its own transaction, and held only then |
| Pulling.Puller.Poll | internal/replica/puller.go:140-216 | one tick from connection to record: the new state of loop and database for every combination of replies and failures |
| Pulling.PollHoldsWhatItApplied | internal/replica/puller.go:140-216 | the version held changes only to that of a document from the pinned primary that was applied and then recorded; nothing else a tick meets changes the database |
| PullOutcomes.NoAnswerOutcome | internal/replica/puller.go:142-167 | no usable answer: nothing is written or held anew, health is unknown, the connection is given up, and the next tick waits twice as long up to the ceiling |
| PullOutcomes.OtherSchemaOutcome | internal/replica/puller.go:168-175 | an answer in another schema keeps connection and pace and nothing else |
| PullOutcomes.UpToDateOutcome | internal/replica/puller.go:177-184 | at the version held nothing is pulled and the tick counts as a sync |
| PullOutcomes.UnusableOutcome | internal/replica/puller.go:186-201 | a document from another node, in another schema or none at all is not written, and costs the connection unless it came from the pinned node |
| PullOutcomes.UsableOutcome | internal/replica/puller.go:202-216 | any other is applied, the servers rebuilt and its own version recorded under the pin, and is held only after all three; what came before a failure stays done |
| Replication.SameVersionSameConfig | internal/app/replication.go:120-168 | in every interleaving of primary writes, ticks, query-by-query reads with services read one by one under their row numbers, applies, failures and restarts: whenever the primary is at the version held, the replica shares the primary's configuration with only the lists beside it that it has put in at its starts since a snapshot landed, so exactly that configuration if and only if the primary has each of those too |
| Replication.SmoothPollConverges | internal/replica/puller.go:140-216 | a poll that meets no write and no failure ends with both sharing one configuration, its snapshot accepted and its version held, if and only if it meets another version than the one held or the primary has every list the replica put in; else the nodes stay apart |
| Replication.ApartForGood | internal/replica/puller.go:181-184 | two nodes at one version with two configurations stay so through ticks, own writes and restarts, until the primary is written to or a start cannot read the version held |
| SeedingRuns.SeedingMaySetApart | internal/policy/service.go:214-266 | the run, from any start: the primary imports a policy without a shipped list, the replica pulls it and restarts, and puts the list in at the version it holds |
| PollRuns.SmoothPollEnds | internal/replica/puller.go:140-216 | undisturbed it makes no more steps than a number known from where it stands, and until it is at rest some step of it can be made |
| PollRuns.SmoothPollCanFinish | internal/replica/puller.go:140-216 | from every point of an undisturbed poll there is a way to its end, with both nodes sharing one configuration there |
| PollRuns.EveryRestCanConverge | internal/replica/puller.go:140-216 | from a state at rest of any behaviour one undisturbed poll brings the two nodes together if it meets another version or the primary has every list the replica put in, and leaves them apart if not |
| PollRuns.HealthIsTheLastTicks | internal/replica/puller.go:275-313 | at every moment of every behaviour health is vouched for only if the newest tick was answered with it |
| Replication.InvHolds | internal/app/replication.go:120-189 | a pull under way never carries a version from before the one held, and carries the primary's only if it carries the primary's configuration |
| Seeding.SeedingKeepsConfigExactly | internal/policy/manifest.go:60-91 | seeding built-in lists at startup leaves what is shared alone if and only if none is missing |
| Seeding.SeedingAddsExactly | internal/policy/manifest.go:60-91 | seeding, cut short anywhere, puts exactly the missing lists it got to beside what is shared |
| Replication.VersionZeroLooksPulled | internal/replica/puller.go:181-184 | why version 0 must mean nothing pulled: a primary still there would be taken for one already pulled |
| SettingsRules.ConfirmPublicPrefixes | internal/settings/validate.go:293-307 | the check passes if and only if every exposed prefix is confirmed now or was there before |
| SettingsRules.CanonicalPrefixes | internal/settings/validate.go:260-271 | every entry in masked form, in order, an unparsable one as it was |
| SettingsRules.CanonicalKeepsValid | internal/settings/validate.go:246-253 | storing the canonical form keeps an accepted row accepted, and a second time changes nothing |
| SettingsRules.BuildSnapshot | internal/settings/settings.go:28-57 | every prefix parsed and masked in order, or the first list that does not parse and nothing built |
| SettingsRules.StoredBuilds | internal/settings/settings.go:28-57 | a row the rules accept can always be run |
| SettingsRules.MixedRowIsValid | internal/settings/validate.go:44-97 | the shared half of one accepted row beside the node-local columns of another is accepted |
| SettingsRules.AcceptedPoolIsBounded | internal/settings/validate.go:122-163 | accepted DHCP has an ordered IPv4 pool of at most 65536 addresses, a lease time within its bounds, and no watched lease file |
| SettingsOutcomes.AcceptedExactly | internal/settings/validate.go:44-163 | a row is accepted if and only if it keeps every rule, each spelled out column by column |
| SettingsOutcomes.LetThroughExactly | internal/settings/validate.go:34-39 | a save is let through if and only if it also retypes, as it prints without host bits, each prefix reaching beyond the private ranges that was not there before however spelled |
| SettingsOutcomes.UnconfirmedIsRefused | internal/settings/settings.go:197-212 | on a primary a row with a new exposed prefix nobody confirmed is refused, and nothing stored or running changes |
| SettingsOutcomes.SaveOutcome | internal/settings/settings.go:210-236 | a save that goes through leaves each column as given, prefix lists as they print, and runs from that row; the records move if and only if there was a zone before and it is another now |
| SettingsOutcomes.ReplicaSaveOutcome | internal/settings/settings.go:252-271 | on a replica it writes the eight DHCP columns and no other, and runs from the row |
| SettingsOutcomes.RunExactly | internal/settings/settings.go:30-57 | a row can be run if and only if its prefixes and upstreams read as such; queries are allowed from exactly its prefixes without host bits, in order, and the tailnet's with the flag |
| ReplicaSettings.RefusedExactly | internal/settings/settings.go:252-259 | a replica refuses a save if and only if it reaches past the eight columns, a nil list told from an empty one, or breaks a rule |
| ReplicaSettings.Holder.Rebuild | internal/settings/settings.go:78-91 | the running snapshot becomes the one built from the row, or stays on any error |
| ReplicaSettings.Service.Set | internal/settings/settings.go:197-236 | both write paths: what is refused, what is written, what runs afterwards |
| ReplicaSettings.SavesAndPullsCommute | internal/store/settings.go:58-65 | a save of the eight columns and a pulled snapshot give the same database whichever commits first |
| ReplicaSettings.RowIsJoined | internal/settings/settings.go:238-271 | in every interleaving, whatever rows are pulled, the row is the last snapshot's replicated half, the last save's eight columns and the other four as ever, and the rules accept it if and only if they accept that half as it reads back here |
| ReplicaSettings.AtRestTheRowRuns | internal/settings/settings.go:69-108 | with all pulls and saves ended and no rebuild left that could not read the row, what runs is built from the row if and only if anything can be, and it can when the rules accept the half last pulled |
| ReplicaSettings.BrokenRowArrives | internal/app/replication.go:170-189 | the input: a row accepted at its primary, with a line that is no upstream, is pulled and stored, and nothing can be built from it |
| Roles.RoleHolder.constructor | internal/app/role.go:40-60 | the boot role comes from the file, a recorded promotion overruling a primary named there, and the pull loop starts only with a replica's |
| Roles.Promote | internal/app/replication.go:247-270 | record, loop, pin, role in that order; after each failure exactly what came before it is done |
| Roles.EveryRebootIsPrimary | internal/app/replication.go:249-253 | once a promotion is recorded every boot until a later join comes up writable, as a primary where the file names one, wherever the promotion was cut short |
| Roles.PromotedExactly | internal/store/peer.go:98-140 | at every moment the database says promoted if and only if a committed promotion, of this run or from before it, has not been ended by a join |
| Roles.BootsAsReplicaExactly | internal/app/role.go:22-44 | a boot comes up as a replica if and only if its file names a primary, and is none, and no committed promotion stands un-joined |
| Roles.BootOutcome | internal/app/role.go:21-46 | the role of every boot from file and standing promotion, and the loop it starts: only a replica's, and only after its pin |
| Roles.NoSnapshotAfterPromotion | internal/app/replication.go:255-259 | recorded and no longer a replica, live or down, a node applies no snapshot until it joins again |
| Roles.OnlyReplicasPull | internal/app/replication.go:304-319 | a snapshot is applied, and its version recorded, only while the live role is replica |
| Roles.JoinIsWhole | internal/store/peer.go:119-140 | a join pins the new primary and ends the promotion, or changes nothing; the next boot follows exactly that primary |
| Roles.JoinWaitsForABoot | internal/app/replication.go:284-302 | a join alone starts no pull |
| Roles.LivePrimaryMayRebootAsReplica | internal/app/replication.go:247-270 | the promise is tied to the record: a join landing between record and role leaves a live primary that reboots as a replica |

## Left out

- Cache.Cache.constructor: requires a size that is not negative, because with a negative one the eviction loop does not end; `CacheFacts.EvictionEndsExactly` says exactly when it does.
- Cache.Cache.Put: takes a message, because a nil one is simply not stored.
- Matcher.NewMatcher: sorts by insertion, because any sorted arrangement of the same entries gives the same matches, which is what is proved.
- StoreObject.Store.Records: gives the rows in row order, not sorted by name and type, because what is proved of records is about all of them together.
- SnapshotFacts.ApplyGivesTheSnapshot: states records as a multiset, because records carry no order of their own in the database.
- Replication.SameVersionSameConfig: speaks of one replica and its one primary, because replicas do not talk to each other; following another primary after a join starts a new run.
- Roles.EveryRebootIsPrimary: takes the second of a promotion to be after 1970, because a recorded 0 reads as no promotion.
- ReservationRefresh.AtRestTheListShows: claims nothing after a refresh that could not read the list, because it publishes nothing and nothing retries it until the next write.
- DhcpServer.Server.Handle: takes MAC and hostname as already normalized and sanitized text, and does not model option encoding.
- Arpa.ReadingUndoesPrinting: reads addresses as dotted quads and eight full groups only, which is all a printed reverse name turns into.
- ReverseReads.ReadExactly: speaks of labels that are not empty and hold no colon or percent sign, because with those the address parser also reads shortened, mapped and zoned forms, which are not modelled; no name on the wire has an empty label.
- NameAnswers.ReverseNameIsOwned: speaks of such labels only, for the same reason.
- Authoritative.Authority.Answer: does not model the reply's TTL and serial number.
- Services and lists are handled by their unique names where the database uses row numbers, except while a pull reads services; `Replication` lets a write that raises the version give them any other numbers; the encoding of a snapshot in JSON is taken to be faithful.
- Case is ASCII, and names have no escapes; Unicode folding and trimming are not modelled.
- Stored leases whose address text does not parse, and log lines with the maps kept only for them.
- Handlers still running on a listener that has been replaced, and the fan-out of a settings change to the running components.
- The broadcast address is computed with arithmetic on 32-bit values instead of byte by byte.
- Zone rebuilds are not serialized in the code, so which of two overlapping ones ends up served is not claimed.
- A pull loop still running after a second join can write its old pin back; a restart follows every join in `Replication`.
- HTTP handlers, web pages, command line, sessions, single sign-on, backups, pairing cryptography, TLS pinning, upstream transports, sockets, probes on the wire, query filtering, health hysteresis, metrics, login backoff and invite codes are not part of this model.
