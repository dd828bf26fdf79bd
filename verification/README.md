# wg-mesh: a verified model

This project models the control plane of wg-mesh, a WireGuard mesh daemon, and
proves what its algorithms guarantee over whole runs. It covers:

- the Kademlia routing table: XOR distance, bucket choice, insert, the gathering
  loop, `closest`, and the multi-node protocol built on it;
- the handshake monitor with its registry, its port scanner and the WireGuard
  device it writes to, alone and composed;
- the hub's punch scheduler;
- the STUN attribute walk and the symmetric-NAT port predictor;
- the peer-exchange store, and many daemons exchanging peers.

`dafny verify dfyconfig.toml` checks everything.

## How it is modelled

- A node ID is the 20 decoded bytes of the 40-digit lowercase hex string that
  `NodeID` produces. `NodeID` itself is an arbitrary function from keys to IDs;
  nothing is assumed about it.
- Code that updates things in place is a class or a loop: `DhtTable.Table`,
  `DhtNode.Dht`, `Registry.State`, `Monitor.HandshakeMonitor`,
  `PortPrediction.PortPredictor`, `Pex.Protocol`. Each keeps a ghost history, and
  its validity predicate says that its state is a function of that history.
- Everything the environment decides (clock, device answers, scan results, message
  delivery, the order in which Go ranges over a map, the schedule of goroutines) is
  a parameter or a step, so every theorem holds for all of its choices.
- `sort.Slice` is a method of which callers know only the contract: some
  permutation without inversions.
- Only a single bucket access is atomic. `Table.mu` is never write-locked, so
  inserts may land between the bucket reads of `KnownPeers` and `closest`.
- Network messages are never removed: they may be lost, repeated, reordered and
  delivered to anybody. `handleConn` decodes one message per connection although
  `findNode` sends two, so nothing is claimed about a query being answered.
- Integers are unbounded. No Go integer in the modelled code comes near its width,
  except for absurd flag values such as a port centre close to 2^63.
- Go's `/` is written out where an operand may be negative (`MonitorCore.Half`).
- A Go panic of the STUN parser or of the punch scheduler is an explicit outcome.

## Where the code and its documentation disagree

The model follows the code in each case.

- The README of wg-mesh and the monitor's log message say that a stale peer's /32
  route is cleared so that traffic falls back to the relay. The monitor writes an
  empty AllowedIPs, which `buildArgs` leaves out of the command. The route is gone
  after that step exactly when it was absent before (`RouteDrift.StaleRouteClearedIff`,
  with the concrete case `RouteDrift.StaleRouteSurvives`).
- A comment in the monitor says that the next cycle will check the handshake of a
  restored peer. Phase 1 skips tracked peers, so without the blind scan a tracked
  peer stays tracked and disconnected for ever (`MonitorCore.SavedForeverWithoutScan`,
  with the run `MonitorCore.FreshButSavedExample`).
- RFC 8489 pads attribute values to four bytes; the STUN parser does not skip the
  padding. Behind other unpadded attributes and one of any length the final address is
  recovered exactly when that length is divisible by four (`Stun.AddressRecoveredIff`).
  An address in front of such an attribute is kept if at most 8 bytes of attributes
  follow (`Stun.AddressKeptInFront`).
- The read lock taken by `KnownPeers` and `closest` does not make their snapshot
  atomic. An insert changes the table by admitting a contact or by refreshing its
  endpoints. The gathered list is the table, endpoints included, at one moment of the
  reads whenever no change of a bucket already read precedes a change of a bucket still
  to be read (`Snapshot.WholeIfSeenFirst`). Where no ID announces again an endpoint it
  replaced, that condition is also necessary (`Snapshot.SettledWholeIff`); without that
  it is not, since an endpoint may be left and come back (`Snapshot.WholeAfterReturn`).
  For the gathered IDs alone, `DhtTable.AtomicIff` is exact in every run.
  `DhtTable.SnapshotNeedNotBeAtomic` and `Snapshot.RefreshTearsSnapshot` are families
  of torn snapshots, the second with the right IDs and endpoints that were never held
  together. `DhtTable.SnapshotBounds` says what every snapshot guarantees.
- The README of wg-mesh says that PEX gossip periodically spreads what is known to the
  connected peers. The registry it spreads never gets an endpoint, so daemons alone
  exchange nothing (`PexMesh.NothingExchanged`).
- `PredictForTarget` is documented as the port after `offset` new destinations.
  That is where `offset` rounds of `Predict` end, except that a step refused below
  port 1024 ends the rounds; `PortPrediction.JumpIsRoundsIff` gives the exact condition.

## Model

| member | source | states |
|---|---|---|
| XorMetric.XorDist | pkg/dht/kademlia.go:37-45 | the buffer is filled with the bytewise XOR of the two IDs |
| XorMetric.CountLeadingZeros | pkg/dht/kademlia.go:47-54 | the loop returns the number of leading zero bits of the whole byte string |
| XorMetric.LexLessIsNumericOrder | pkg/dht/kademlia.go:573-577 | Go's order on equally long byte strings is the order of the numbers they stand for, and equal strings are equal numbers |
| XorMetric.BucketIsDistanceRange | pkg/dht/kademlia.go:47-54 | the bucket index is i if and only if 2^(159-i) <= distance < 2^(160-i) |
| XorMetric.BucketOfSelf | pkg/dht/kademlia.go:47-54 | the index is 160, and the distance zero, exactly for equal IDs |
| XorMetric.DistanceSymmetric | pkg/dht/kademlia.go:37-45 | the distance is symmetric |
| XorMetric.DistanceTriangle | pkg/dht/kademlia.go:37-45 | the distance obeys the triangle inequality |
| XorMetric.DistanceInjective | pkg/dht/kademlia.go:573-577 | from one target no two IDs are equally far, and `less` compares distances |
| XorMetric.BucketSeenFrom | pkg/dht/kademlia.go:535-540 | how a contact's bucket index changes when it is seen from another target: shallower buckets keep it, deeper ones collapse, the target's own gets strictly closer |
| RoutingTable.InsertKeepsWellFormed | pkg/dht/kademlia.go:535-562 | insert keeps: at most 8 contacts per bucket, no ID twice, every contact in the bucket of its leading bits |
| RoutingTable.NeverHoldsSelf | pkg/dht/kademlia.go:538-540 | no such table holds its owner's ID |
| RoutingTable.TableIsHistory | pkg/dht/kademlia.go:535-562 | after any insert history bucket i holds, in order, the first 8 distinct IDs sharing exactly i leading bits, each with its first key and control endpoint, its last endpoint and its last non-empty public endpoint |
| Closest.SortSlice | pkg/dht/kademlia.go:573-577 | sorting yields a permutation without inversions, and callers rely on no more |
| Closest.SortIsAscending | pkg/dht/kademlia.go:573-577 | on distinct IDs any such permutation is strictly ascending in distance |
| Closest.ClosestUnique | pkg/dht/kademlia.go:564-582 | the answer (min(n, size) contacts, strictly ascending, nothing nearer omitted) is unique, whatever the gathering order and the sort |
| Closest.BucketWalkSorts | pkg/dht/kademlia.go:564-582 | walking bucket b, then everything above b, then b-1 down to 0 visits the whole table in strictly ascending distance |
| Closest.ClosestIsBucketWalk | pkg/dht/kademlia.go:564-582 | for every well-formed table and target, sort-everything cut to n equals the bucket walk cut to n |
| DhtTable.Table.constructor | pkg/dht/kademlia.go:119-127 | a new table is empty |
| DhtTable.Table.UpdateOrAppend | pkg/dht/kademlia.go:544-561 | the locked part of insert: refresh in place if known, else append while there is room, else nothing |
| DhtTable.Table.Insert | pkg/dht/kademlia.go:535-562 | the table stays a function of its insert history, which grows by the inserted contact |
| DhtTable.Table.Gather | pkg/dht/kademlia.go:506-516 | the loop of KnownPeers, with arbitrary inserts before each bucket read, returns each bucket as it stood when read |
| DhtTable.Table.ClosestContacts | pkg/dht/kademlia.go:564-582 | under the same interference the answer is exactly the closest n of what was gathered |
| DhtTable.SnapshotBounds | pkg/dht/kademlia.go:506-516 | whatever inserts interleave, the gathered list repeats no ID, has every ID held at the start and only IDs held at the end |
| DhtTable.QuietSnapshot | pkg/dht/kademlia.go:506-516 | without interference the gathered list is the table itself |
| DhtTable.AtomicIff | pkg/dht/kademlia.go:506-516 | for every history and every schedule of inserts, the gathered IDs are those of the table at some moment of the reads if and only if no admission to a bucket already read comes before an admission to a bucket still to be read |
| DhtTable.SnapshotNeedNotBeAtomic | pkg/dht/kademlia.go:506-516 | for any two contacts of different buckets some run's snapshot has the later one without the earlier one, which no state of the run has, so that it is not atomic |
| Snapshot.WholeIfSeenFirst | pkg/dht/kademlia.go:506-516 | for every history and schedule without a change of a bucket already read before a change of a bucket still to be read, the gathered list is what an undisturbed gathering returns at some moment, endpoints included |
| Snapshot.WholeIff | pkg/dht/kademlia.go:506-516 | that condition is also necessary in every run in which no bucket gets back contents it had before |
| Snapshot.SettledNeverReturns | pkg/dht/kademlia.go:544-556 | no bucket does, whenever no ID announces again an endpoint or public endpoint it replaced |
| Snapshot.SettledWholeIff | pkg/dht/kademlia.go:506-516 | so for such announcements the gathered list is the table at one moment if and only if no missed change precedes a seen one |
| Snapshot.RefreshTearsSnapshot | pkg/dht/kademlia.go:544-556 | for any two known contacts of different buckets that get new endpoints, some run's snapshot has the old endpoint of one and the new one of the other, which the table never held, although its IDs are right |
| Snapshot.WholeAfterReturn | pkg/dht/kademlia.go:544-556 | an endpoint that is left and comes back: the list is the final table although a missed change precedes a seen one |
| DhtProtocol.StepKeepsInv | pkg/dht/kademlia.go:317-374 | every step of every node keeps all tables, messages and running handlers honest and well-formed |
| DhtProtocol.TablesStayHonest | pkg/dht/kademlia.go:317-374 | in every run, at every node: each contact's ID is NodeID of its key, the own ID is not held, no public key is held twice, the discovery callback never gets the node's own key |
| DhtProtocol.MessagesStayHonest | pkg/dht/kademlia.go:466-473 | in every run every query carries its sender's ID and every answer honest contacts |
| DhtProtocol.GatheredKeysDistinct | pkg/dht/kademlia.go:506-516 | in every run a list gathered bucket by bucket repeats neither an ID nor a public key |
| Gathering.TableIsReplay | pkg/dht/kademlia.go:535-562 | in every run every table is the replay of exactly the inserts the run's steps made at its node |
| Gathering.InterferenceIsInserts | pkg/dht/kademlia.go:506-516 | the inserts at a node are those before a gathering, those its reads were interleaved with, and those since |
| Gathering.HandlerIsGather | pkg/dht/kademlia.go:506-516 | in every run a handler's bucket reads are the loop of Table.Gather, from the table as it stood and with the inserts of the run's own steps between the reads |
| Gathering.FinishedHandler | pkg/dht/kademlia.go:506-516 | in every run a finished handler has gathered no ID twice, every ID its node held when it started, and only IDs the node holds now |
| Gathering.HandlerSawTable | pkg/dht/kademlia.go:506-516 | in every run a finished handler for which no missed change preceded a seen one has gathered exactly its node's table, endpoints included, as it stood after some step since the handler started |
| Gathering.CanAnswer | pkg/dht/kademlia.go:317-349 | from every run every registered query can still be answered, by reading the unread buckets |
| Gathering.AnyoneMayReceive | pkg/dht/kademlia.go:231-262 | in every run every node can register every query and learn every answer in flight |
| DhtNode.Dht.constructor | pkg/dht/kademlia.go:119-136 | a new node has an empty table under the ID of its key |
| DhtNode.Dht.HandleFindNode | pkg/dht/kademlia.go:317-349 | the contact inserted has the sender's ID, key and control endpoint, the query's endpoint or else the remote address, and the observed public endpoint or else the reported one; the same contact is announced unless it is the node or has no key; the answer is the closest 8 of what is gathered |
| DhtNode.Dht.LearnContact | pkg/dht/kademlia.go:352-373 | a contact other than the node itself is inserted, and announced if it has a key; nothing else is |
| DhtNode.Dht.HandleFindNodeResp | pkg/dht/kademlia.go:351-374 | the whole answer is learnt in order |
| DhtNode.LearntAll | pkg/dht/kademlia.go:351-374 | of an answer exactly the contacts other than the node itself are inserted, and exactly those with a key announced, all in order if all qualify |
| DhtNode.LearnStepIsLearnContact | pkg/dht/kademlia.go:352-373 | the protocol's learning step changes the node as the handler's loop body does, and nothing else |
| DhtNode.RegisterStepIsHandleFindNode | pkg/dht/kademlia.go:317-344 | the protocol's registering step changes the node as the handler does before it gathers |
| DhtNode.RegisteredAs | pkg/dht/kademlia.go:317-344 | in every run a node that holds a querying peer right after registering it holds it at the query's endpoint or remote address and with the observed public endpoint rather than the reported one, and announces the same |
| DhtNode.SeededAs | pkg/dht/kademlia.go:403-418 | in every run a seed held right after bootstrapping is held at its given endpoint, and under its own key if it is new |
| DhtNode.SentBy | pkg/dht/kademlia.go:466-473 | in every run every query was sent by a node about itself with its own endpoints, and every answer under the answering node's ID |
| DhtNode.RespondIsHandleFindNode | pkg/dht/kademlia.go:317-349 | in every run registering, reading and responding together give the answer HandleFindNode promises, for the inserts the run's own steps made at the node |
| DhtNode.SelfQueryAnswersSelf | pkg/dht/kademlia.go:335-346 | since every query asks for its own ID, the first contact of an undisturbed answer is the sender itself, exactly when its bucket knew it or had room |
| Registry.State.constructor | pkg/mesh/state.go:45-54 | a new registry is empty |
| Registry.State.UpsertPeer | pkg/mesh/state.go:62-73 | the record, fresh if it was missing, is updated and time-stamped; no other record changes |
| Registry.State.ConnectedPeers | pkg/mesh/state.go:99-109 | every connected peer is returned exactly once, and no other |
| Registry.State.PeerCount | pkg/mesh/state.go:112-122 | the counts are the sizes of the registry and of its connected part |
| MonitorCore.RunKeepsPartition | cmd/wg-meshd/main.go:524-629 | in every run saved peers are registered, and a registered peer is connected exactly when it is not saved |
| MonitorCore.PartitionCounts | cmd/wg-meshd/main.go:524-629 | the registry's size is the number of connected plus the number of saved peers |
| MonitorCore.HubNeverSaved | cmd/wg-meshd/main.go:535-538 | in every run the hub is neither saved nor registered |
| MonitorCore.HubNeverTouched | cmd/wg-meshd/main.go:534-624 | at no step of any run is the hub written to or scanned |
| MonitorLaws.ContainsIff | cmd/wg-meshd/main.go:549-551 | the relay test finds "/24" at any position, and only then |
| MonitorLaws.StaleIsRecorded | cmd/wg-meshd/main.go:534-588 | in every run a listed peer is recorded exactly when it is neither hub nor relay nor tracked, has an endpoint, and its last handshake, possibly never, is too old: with its listed endpoint, routes, keepalive and bytes, as not connected, and with one clearing command exactly when it has routes; otherwise nothing changes |
| MonitorLaws.NotDueDoesNothing | cmd/wg-meshd/main.go:591-594 | in every run a retry before half the interval, or of an untracked peer, does nothing |
| MonitorLaws.ScanSuccessReconnects | cmd/wg-meshd/main.go:598-606 | in every run a due retry whose scan succeeds forgets the peer, marks it connected and sends nothing |
| MonitorLaws.RestoreWritesListed | cmd/wg-meshd/main.go:608-623 | in every run a due retry without a scan success sends exactly one command, with the endpoint, routes and keepalive the peer was listed with when it was recorded; on every device, also one that lacks the peer, that makes it so; the saved time is renewed exactly when the write succeeds |
| MonitorCore.SavedStep | cmd/wg-meshd/main.go:591-624 | a saved peer leaves exactly by a scan success when due, and one that stays keeps endpoint, routes, keepalive and baseline |
| MonitorCore.SavedUntilHit | cmd/wg-meshd/main.go:591-624 | over any stretch of a run without a scan success for it a saved peer stays saved with the same record |
| MonitorCore.SavedForeverWithoutScan | cmd/wg-meshd/main.go:622-623 | without the blind scan a saved peer stays saved and disconnected for ever |
| MonitorCore.FreshButSaved | cmd/wg-meshd/main.go:554-623 | every stale peer that is then restored and listed with a new handshake stays saved and disconnected without the blind scan |
| MonitorCore.FreshButSavedExample | cmd/wg-meshd/main.go:554-623 | a concrete such run |
| Recovery.LeavesByHandshake | cmd/wg-meshd/main.go:591-606 | in every run of monitor and scanner a peer stops being saved only by a scan whose last accepted candidate was listed with a handshake of that scan and with more bytes than when the peer was recorded |
| Recovery.ScanStartsAsListed | cmd/wg-meshd/main.go:686-697 | in every run of monitor and scanner a scan begins by writing the peer with the routes and keepalive it was listed with when it was recorded |
| Recovery.ConnectedByHandshake | cmd/wg-meshd/main.go:591-606 | in every such run a registered peer is shown as connected only if a scan heard it in this way, and it has not been saved since |
| MonitorCore.SavedProvenance | cmd/wg-meshd/main.go:565-583 | every saved record is what the device reported of that peer at a moment it was neither hub nor relay and too old |
| MonitorCore.SentProvenance | cmd/wg-meshd/main.go:567-574 | every command ever sent sets a peer to an endpoint and keepalive it was listed with, and to the routes it was listed with or to none |
| MonitorCore.RestoresAreSpaced | cmd/wg-meshd/main.go:592-623 | with a clock that does not go back, half the restore interval passes between recording and first restore and between any two restores of one saved period |
| Monitor.HandshakeMonitor.constructor | cmd/wg-meshd/main.go:522-522 | the monitor starts with no saved peer |
| Monitor.HandshakeMonitor.ExaminePeer | cmd/wg-meshd/main.go:534-588 | one turn of phase 1 is one Examine step, for saved peers, registry and commands |
| Monitor.HandshakeMonitor.RetryPeer | cmd/wg-meshd/main.go:591-624 | one turn of phase 2 is one Retry step |
| Monitor.HandshakeMonitor.Check | cmd/wg-meshd/main.go:524-629 | one check examines every listed peer in order and then retries every saved peer exactly once, in some order; a failed listing changes nothing |
| Monitor.HandshakeMonitor.PeerTotals | pkg/mesh/state.go:112-122 | between checks total = connected + number saved |
| RouteDrift.MonitorKeepsRoutes | cmd/wg-meshd/main.go:565-618 | a non-empty AllowedIPs written by the monitor is the very set the device holds |
| RouteDrift.BlindScanSendsScanCommands | cmd/wg-meshd/main.go:688-699 | a blind scan started with a saved record writes that peer only, with the recorded routes or none |
| RouteDrift.RoutesNeverDrift | cmd/wg-meshd/main.go:565-618 | over any run of checks, scans, discoveries, punches and roaming every peer keeps its routes on the device, and new peers have none |
| RouteDrift.OtherWriters | cmd/wg-meshd/main.go:231-236 | what a discovery, a punch and a roaming peer change on the device, and that they change nothing else |
| RouteDrift.ScanWrites | cmd/wg-meshd/main.go:686-702 | an accepted candidate of a scan is executed on the device, a refused one changes nothing |
| RouteDrift.RestoreOnDevice | cmd/wg-meshd/main.go:608-623 | a due and accepted restore leaves the device with the recorded endpoint, routes and keepalive; otherwise the device is unchanged |
| RouteDrift.StaleRouteClearedIff | cmd/wg-meshd/main.go:565-575 | after being recorded stale a peer is without routes exactly when it was without routes before |
| RouteDrift.StaleRouteSurvives | pkg/uapi/client.go:75-77 | a concrete stale peer keeps its route although the clearing write succeeds |
| PortOrder.Add | cmd/wg-meshd/main.go:741-746 | a port is appended exactly when it is valid, new and there is room, and the bitmap tracks the list |
| PortOrder.AddRegion | cmd/wg-meshd/main.go:757-759 | the third loop adds nothing |
| PortOrder.PrioritizedPorts | cmd/wg-meshd/main.go:735-764 | for every centre and count the result is the first `count` valid ports in the order: within 4096 nearest first and lower first on ties, then the rest ascending |
| PortOrder.EarlierMeans | cmd/wg-meshd/main.go:735-764 | of two ports in the list: within 4096 of the centre before beyond, nearer before farther, lower on ties and beyond |
| PortOrder.ShorterIsPrefix | cmd/wg-meshd/main.go:735-764 | a shorter run is a prefix of a longer one |
| PortOrder.FullScanIsPermutation | cmd/wg-meshd/main.go:735-764 | at full count the result is a permutation of 1..65535 |
| BlindScan.FindAccepted | cmd/wg-meshd/main.go:708-715 | the inner loop succeeds exactly when some listed peer has the key, the endpoint just tried, a handshake no older than the scan and more bytes than the baseline |
| BlindScan.TryCandidate | cmd/wg-meshd/main.go:686-717 | the first candidate is sent with routes and keepalive, later ones as an endpoint only; it is accepted exactly when the update succeeded, its index is divisible by 16 and the listing has an accepted peer |
| BlindScan.ScanCandidates | cmd/wg-meshd/main.go:677-732 | candidates are tried in order, on the paced schedule, before the deadline and before any cancellation; the first acceptance signal, and only that, is the result; the scan ends early for no other reason |
| BlindScan.BlindScanEndpoint | cmd/wg-meshd/main.go:651-733 | an endpoint that does not parse is refused without an attempt; otherwise the scan above runs over the prioritized ports, at most `count` of them, within the budget or 330 s and the rate or 200/s, beginning with the old port and its routes |
| BlindScan.ScanOnDevice | cmd/wg-meshd/main.go:688-699 | once the first candidate is accepted the device has the peer with its routes and keepalive, also if it was absent; later ones only move the endpoint |
| BlindScan.ScheduleIsTimed | cmd/wg-meshd/main.go:718-730 | the pacing keeps attempts in order and every success within the rate, although failed updates skip the wait |
| BlindScan.RateAtEveryMoment | cmd/wg-meshd/main.go:718-730 | if K updates have succeeded by t ns then (K-1)*10^9 < (t+1)*rate, for every t |
| BlindScan.ScanIsBounded | cmd/wg-meshd/main.go:671-680 | hence a bound on the successes of a whole scan by its budget |
| BlindScan.CandidatesTriedOnce | cmd/wg-meshd/main.go:674-686 | no port is tried twice |
| PunchSchedule.SendPair | cmd/wg-meshd/main.go:472-482 | the two plans of a pair share identifier, start and window and name each other's key and endpoint; the calls panic exactly when a key is too short for the prefixes that are cut, and then at most a prefix of the two plans is sent |
| PunchSchedule.PanicsIff | pkg/dht/kademlia.go:268-284 | a pair panics exactly when a key is shorter than 16 characters, or its peer has no control connection and its key is shorter than 32 or some connected key shorter than 16 |
| PunchSchedule.ScheduleTick | cmd/wg-meshd/main.go:451-485 | a tick sends both plans for exactly the pairs of peers with a key other than the hub's and a public endpoint, each pair once: they start the lead, or 750 ms, after the pair was scheduled, last the window, or 500 ms, and are named after the start's millisecond and both key prefixes; or it panics at a pair whose keys are too short, after the whole schedule of the pairs before it |
| PunchSchedule.PlansAreAccepted | cmd/wg-meshd/main.go:257-262 | over a key-unique list no plan targets its recipient or the hub, and the receiver's guard accepts it |
| PunchSchedule.ExactlyOnePlanPerPair | cmd/wg-meshd/main.go:461-485 | over a key-unique list every ordered pair of distinct eligible peers gets exactly one plan |
| PunchSchedule.HonestTick | cmd/wg-meshd/main.go:461-485 | over any list gathered in any run of the DHT every two distinct eligible peers get one plan each with the same identifier, start and window, no ordered pair gets a second plan, and every plan names two peers other than the hub and is accepted |
| Stun.BuildStunRequest | pkg/nat/stun.go:57-74 | the request is a binding request of length zero with the magic cookie and the fixed transaction ID |
| Stun.ReadAddress | pkg/nat/stun.go:95-114 | port and address are unmasked with cookie and transaction ID; an unknown family gives the port only; the code panics exactly on an IPv6 address beyond the end |
| Stun.VisitMeans | pkg/nat/stun.go:85-117 | an attribute cut off ends the walk, one that is no address or shorter than 8 bytes changes nothing, any longer address is read |
| Stun.ParseStunResponse | pkg/nat/stun.go:77-119 | the loop computes the attribute walk and stays within bounds, or panics |
| Stun.ParseInvertsEncode | pkg/nat/stun.go:77-119 | for every header and every list of well-formed attributes of which only the last may need padding, parsing the encoding gives the attributes' meaning, without a panic |
| Stun.ParseRecoversAddress | pkg/nat/stun.go:77-119 | that meaning is the port and address of the last XOR-MAPPED-ADDRESS, IPv4 or IPv6 |
| Stun.InStepIffAligned | pkg/nat/stun.go:85-117 | for every list of attributes the walk reads headers only where the encoder wrote them exactly when no attribute but the last needs padding |
| Stun.ParseBehindAttribute | pkg/nat/stun.go:85-117 | what parsing gives when an attribute of any kind and length precedes a final IPv4 or IPv6 address: the address if that attribute needs no padding, else only what stood before it |
| Stun.AddressRecoveredIff | pkg/nat/stun.go:85-117 | behind other unpadded attributes and one of any length the final address is recovered if and only if that length is divisible by four |
| Stun.AddressKeptInFront | pkg/nat/stun.go:85-117 | behind an attribute of any length at most 8 bytes of further attributes cannot change what was learnt before it |
| PortPrediction.PortPredictor.Record | pkg/nat/predict.go:104-110 | a mapped port is appended; port zero is an error that changes nothing |
| PortPrediction.PortPredictor.Analyze | pkg/nat/predict.go:115-141 | it succeeds exactly on a non-constant arithmetic progression of at least two samples, and stores its difference, else zero |
| PortPrediction.PortPredictor.Predict | pkg/nat/predict.go:146-156 | the next term of the progression, or 0 outside 1024..65535 |
| PortPrediction.PortPredictor.PredictForTarget | pkg/nat/predict.go:161-170 | the k-th next term, or 0 outside 1024..65535 |
| PortPrediction.PortPredictor.Reset | pkg/nat/predict.go:173-176 | samples and step are cleared |
| PortPrediction.JumpIsRounds | pkg/nat/predict.go:146-170 | for k >= 1, when the next and the k-th next port are in range, k rounds of appending the prediction and analyzing again end at the jump's port with the same step |
| PortPrediction.JumpIsRoundsIff | pkg/nat/predict.go:146-170 | on mapped ports jump and rounds agree if and only if it is not the case that the next port is below 1024 and the k-th next is back in range; they always agree from a last port of at least 1024 |
| PortPrediction.JumpWithoutRounds | pkg/nat/predict.go:146-170 | a concrete progression below port 1024 on which they differ |
| Pex.Protocol.MergeEntry | pkg/pex/protocol.go:193-203 | one locked turn: self is skipped, the first useful entry of a key is stored and launches one connect |
| Pex.Protocol.HandleEntries | pkg/pex/protocol.go:210-222 | a handler's loop with entries of other handlers merged in between leaves the store a function of the arrival order |
| Pex.LaunchedOnce | pkg/pex/protocol.go:175-188 | after any arrivals every stored key has exactly one launched connect, to its entry's first endpoint, and self is not stored |
| Pex.NeverOverwritten | pkg/pex/protocol.go:198-201 | a stored entry never changes |
| Pex.StoresFirstUseful | pkg/pex/protocol.go:198-201 | a key is stored exactly when an entry with endpoints arrived for it, and the stored entry is the first such |
| Pex.KeysWhateverTheOrder | pkg/pex/protocol.go:175-222 | for every interleaving of any handlers the stored keys are exactly the non-self keys received with endpoints, each launched once |
| PexMesh.KnownPeers | cmd/wg-meshd/main.go:86-96 | the callback lists every connected peer of the registry once, with its endpoints |
| PexMesh.HistoryIsGood | cmd/wg-meshd/main.go:584-603 | in every run of many daemons no registry gets an endpoint, and every useful entry sent or stored came from another program |
| PexMesh.NeverGossips | pkg/pex/protocol.go:140-159 | in every run no daemon ever has an endpoint to gossip to |
| PexMesh.StoredIsForeign | pkg/pex/protocol.go:175-222 | in every run every stored entry came from another program, with endpoints, and was launched exactly once |
| PexMesh.NothingExchanged | pkg/pex/protocol.go:140-222 | unless another program sends an entry with endpoints every store stays empty and no connect is launched |
| PexMesh.ReceivedIsStored | pkg/pex/protocol.go:191-203 | in every run a received entry is stored and launched exactly when it has endpoints, is not about the daemon itself and its key is new |
| PexMesh.ComponentsRun | cmd/wg-meshd/main.go:83-106 | in every run each daemon's registry is its monitor's after its own steps and its store is the protocol's after the entries delivered to it |
| PexMesh.RequestIsAnswered | pkg/pex/protocol.go:205-207 | in every run every daemon can answer a request, and the answer lists its connected peers |

## Left out

- Sockets, gob encoding, dialling, accept loops, goroutine start and shutdown: input and output around the modelled handlers.
- Control connections, `SendState`, `handleReportState`, `handlePing`, the timers of the PEX gossip loop: message plumbing without modelled state.
- Log lines of the monitor and of the DHT handlers that cut 16 characters of a key, which panic on shorter keys; those of the punch scheduler are modelled.
- SHA-256 and hex in `NodeID`: an arbitrary function is enough for every theorem.
- The timing and the acceptance test of `runPunchPlan`: the test is the one of the blind scan; its writes to the device are actions of module RouteDrift.
- `split`, `splitAndTrim`, `stringsTrim` and the seed flag: string helpers that would only add easy members; seeds enter the protocol as the contacts they produce.
- `DiscoveredPeers`, `Peers`, `RemovePeer`, `LastSample`, `splitList`, `PredictEndpoint`, `PunchHole`: copies, one-liners or effects.
- `net.SplitHostPort` and `net.JoinHostPort`: the scan takes the split endpoint and the join as parameters.
- Executing `wg` and the UAPI socket: the device is a map; a command that fails is taken to change nothing, and moving a route from one peer to another is not modelled.
- Scan completeness: acceptance is looked for only at every 16th candidate, so nothing is claimed about finding a working port.
- Prediction after a new probe without a fresh analysis: the step may be stale then.
- A short or unknown-family XOR-MAPPED-ADDRESS is read as the code reads it but is not part of the encoder and its round trip.
- Stun.InStepIffAligned: states when the walk stays in step, for lists of any shape; whether the address is recovered is stated by Stun.AddressRecoveredIff for an address in last place.
