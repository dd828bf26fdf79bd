/** Many daemons of cmd/wg-meshd/main.go exchanging peers: each hands the
    connected peers of its registry to the protocol of pkg/pex/protocol.go, which
    gossips them, answers requests with them and stores what it receives.

    Messages are never removed, so they may be lost, repeated, reordered and
    delivered to anybody.  Programs other than these daemons may send anything.
 */
module PexMesh {
  import opened Keys
  import opened Registry
  import opened MonitorCore
  import opened Pex

  datatype Message = Message(request: bool, entries: seq<PeerEntry>)

  datatype Daemon = Daemon(cfg: Config, core: Core, store: Store)

  /** `foreign` collects the entries that came from other programs. */
  datatype Mesh = Mesh(daemons: map<Key, Daemon>, sent: set<Message>, foreign: set<PeerEntry>)

  datatype Event =
    | Boot(pk: Key, cfg: Config)
    | Monitor(pk: Key, step: Step)
    | Gossip(pk: Key, entries: seq<PeerEntry>, endpoint: string)
    | Answer(pk: Key, msg: Message, entries: seq<PeerEntry>)
    | Receive(pk: Key, msg: Message, k: nat)
    | Foreign(msg: Message)

  const START: Mesh := Mesh(map[], {}, {})

  function EntryOf(ps: PeerState): PeerEntry {
    PeerEntry(ps.publicKey, ps.endpoints, 0)
  }

  /** A list of the connected peers of the registry, in some order. */
  ghost predicate IsKnownPeers(peers: Peers, entries: seq<PeerEntry>) {
    exists keys, out ::
      Lists(peers, keys, ConnectedKeys(peers), out) && |entries| == |out|
      && forall k :: 0 <= k < |out| ==> entries[k] == EntryOf(out[k])
  }

  ghost predicate HasEntry(entries: seq<PeerEntry>, pk: Key, endpoints: seq<string>) {
    exists k :: 0 <= k < |entries| && entries[k].publicKey == pk && entries[k].endpoints == endpoints
  }

  /** The knownPeers callback. */
  method KnownPeers(state: State) returns (entries: seq<PeerEntry>)
    ensures IsKnownPeers(state.peers, entries)
    ensures |entries| == |ConnectedKeys(state.peers)|
    ensures forall pk :: pk in ConnectedKeys(state.peers) && state.peers[pk].publicKey == pk ==>
              HasEntry(entries, pk, state.peers[pk].endpoints)
  {
    var peers := state.ConnectedPeers();
    entries := [];
    for i := 0 to |peers|
      invariant |entries| == i && forall k :: 0 <= k < i ==> entries[k] == EntryOf(peers[k])
    {
      var p := peers[i];
      entries := entries + [PeerEntry(p.publicKey, p.endpoints, 0)];
    }
    EachConnectedOnce(state.peers, entries);
  }

  /** One entry per connected peer, with its key and endpoints. */
  lemma EachConnectedOnce(peers: Peers, entries: seq<PeerEntry>)
    requires IsKnownPeers(peers, entries)
    ensures |entries| == |ConnectedKeys(peers)|
    ensures forall pk :: pk in ConnectedKeys(peers) && peers[pk].publicKey == pk ==>
              HasEntry(entries, pk, peers[pk].endpoints)
  {
    var keys, out :| Lists(peers, keys, ConnectedKeys(peers), out) && |entries| == |out|
                     && forall j :: 0 <= j < |out| ==> entries[j] == EntryOf(out[j]);
    DistinctCount(keys, ConnectedKeys(peers));
    forall pk | pk in ConnectedKeys(peers) && peers[pk].publicKey == pk
      ensures HasEntry(entries, pk, peers[pk].endpoints)
    {
      var k :| 0 <= k < |keys| && keys[k] == pk;
      assert entries[k] == EntryOf(out[k]);
    }
  }

  lemma {:induction false} DistinctCount(keys: seq<Key>, s: set<Key>)
    requires forall i, j :: 0 <= i < j < |keys| ==> keys[i] != keys[j]
    requires forall pk :: pk in keys <==> pk in s
    ensures |keys| == |s|
  {
    if keys == [] {
      assert s == {};
    } else {
      var last, front := keys[|keys| - 1], keys[..|keys| - 1];
      assert keys == front + [last];
      DistinctCount(front, s - {last});
    }
  }

  /** gossip sends its request to every endpoint of every known peer. */
  ghost predicate Enabled(s: Mesh, e: Event) {
    match e
    case Boot(pk, _) => pk !in s.daemons
    case Monitor(pk, _) => pk in s.daemons
    case Gossip(pk, entries, endpoint) =>
      && pk in s.daemons && IsKnownPeers(s.daemons[pk].core.registry, entries)
      && exists k :: 0 <= k < |entries| && endpoint in entries[k].endpoints
    case Answer(pk, msg, entries) =>
      pk in s.daemons && msg in s.sent && msg.request && IsKnownPeers(s.daemons[pk].core.registry, entries)
    case Receive(pk, msg, k) => pk in s.daemons && msg in s.sent && k < |msg.entries|
    case Foreign(_) => true
  }

  ghost function Handle(s: Mesh, e: Event): Mesh
    requires Enabled(s, e)
  {
    match e
    case Boot(pk, cfg) => s.(daemons := s.daemons[pk := Daemon(cfg, INIT, EMPTY)])
    case Monitor(pk, step) =>
      var d := s.daemons[pk];
      s.(daemons := s.daemons[pk := d.(core := Apply(d.cfg, d.core, step))])
    case Gossip(_, entries, _) => s.(sent := s.sent + {Message(true, entries)})
    case Answer(_, _, entries) => s.(sent := s.sent + {Message(false, entries)})
    case Receive(pk, msg, k) =>
      var d := s.daemons[pk];
      s.(daemons := s.daemons[pk := d.(store := Merge(pk, d.store, msg.entries[k]))])
    case Foreign(msg) => s.(sent := s.sent + {msg}, foreign := s.foreign + set e | e in msg.entries)
  }

  ghost predicate IsHistory(events: seq<Event>)
    decreases |events|, 0
  {
    events == [] || (IsHistory(events[..|events| - 1]) && Enabled(Now(events[..|events| - 1]), events[|events| - 1]))
  }

  ghost function Now(events: seq<Event>): Mesh
    requires IsHistory(events)
    decreases |events|, 1
  {
    if events == [] then START else Handle(Now(events[..|events| - 1]), events[|events| - 1])
  }

  // ------------------------------------------------------------ invariant

  /** UpsertPeer is only ever called to set IsConnected. */
  ghost predicate NoEndpoints(peers: Peers) {
    forall pk :: pk in peers ==> peers[pk].endpoints == []
  }

  ghost predicate StoresForeign(store: Store, foreign: set<PeerEntry>) {
    && OneLaunchEach(store)
    && forall pk :: pk in store.entries ==> store.entries[pk] in foreign && |store.entries[pk].endpoints| > 0
  }

  ghost predicate GoodDaemon(d: Daemon, foreign: set<PeerEntry>) {
    NoEndpoints(d.core.registry) && StoresForeign(d.store, foreign)
  }

  /** Every entry of the message that has endpoints came from another program. */
  ghost predicate UsefulIsForeign(entries: seq<PeerEntry>, foreign: set<PeerEntry>) {
    forall k :: 0 <= k < |entries| && |entries[k].endpoints| > 0 ==> entries[k] in foreign
  }

  ghost predicate Good(s: Mesh) {
    && (forall pk :: pk in s.daemons ==> GoodDaemon(s.daemons[pk], s.foreign))
    && (forall m :: m in s.sent ==> UsefulIsForeign(m.entries, s.foreign))
  }

  lemma MonitorSetsNoEndpoints(cfg: Config, c: Core, step: Step)
    requires NoEndpoints(c.registry)
    ensures NoEndpoints(Apply(cfg, c, step).registry)
  {
  }

  lemma KnownPeersUseless(peers: Peers, entries: seq<PeerEntry>, k: nat)
    requires NoEndpoints(peers) && IsKnownPeers(peers, entries) && k < |entries|
    ensures entries[k].endpoints == []
  {
    var keys, out :| Lists(peers, keys, ConnectedKeys(peers), out) && |entries| == |out|
                     && forall j :: 0 <= j < |out| ==> entries[j] == EntryOf(out[j]);
    assert out[k] == peers[keys[k]];
  }

  lemma MergeStoresForeign(pk: Key, store: Store, e: PeerEntry, foreign: set<PeerEntry>)
    requires StoresForeign(store, foreign) && (|e.endpoints| > 0 ==> e in foreign)
    ensures StoresForeign(Merge(pk, store, e), foreign)
  {
    MergeLaunches(pk, store, e);
  }

  lemma DaemonEvent(s: Mesh, e: Event)
    requires Good(s) && Enabled(s, e) && (e.Boot? || e.Monitor? || e.Receive?)
    ensures Good(Handle(s, e))
  {
    if e.Monitor? {
      assert GoodDaemon(s.daemons[e.pk], s.foreign);
      MonitorSetsNoEndpoints(s.daemons[e.pk].cfg, s.daemons[e.pk].core, e.step);
    } else if e.Receive? {
      assert GoodDaemon(s.daemons[e.pk], s.foreign) && UsefulIsForeign(e.msg.entries, s.foreign);
      MergeStoresForeign(e.pk, s.daemons[e.pk].store, e.msg.entries[e.k], s.foreign);
    }
  }

  lemma SendEvent(s: Mesh, e: Event)
    requires Good(s) && Enabled(s, e) && (e.Gossip? || e.Answer?)
    ensures Good(Handle(s, e))
  {
    assert GoodDaemon(s.daemons[e.pk], s.foreign);
    forall k | 0 <= k < |e.entries| ensures |e.entries[k].endpoints| == 0 {
      KnownPeersUseless(s.daemons[e.pk].core.registry, e.entries, k);
    }
  }

  lemma ForeignEvent(s: Mesh, msg: Message)
    requires Good(s)
    ensures Good(Handle(s, Foreign(msg)))
  {
    var s' := Handle(s, Foreign(msg));
    forall m | m in s'.sent ensures UsefulIsForeign(m.entries, s'.foreign) {
      assert m in s.sent ==> UsefulIsForeign(m.entries, s.foreign);
    }
    forall pk | pk in s'.daemons ensures GoodDaemon(s'.daemons[pk], s'.foreign) {
      assert GoodDaemon(s.daemons[pk], s.foreign);
    }
  }

  lemma {:induction false} HistoryIsGood(events: seq<Event>)
    requires IsHistory(events)
    ensures Good(Now(events))
  {
    if events != [] {
      var front, last := events[..|events| - 1], events[|events| - 1];
      HistoryIsGood(front);
      match last
      case Foreign(msg) => ForeignEvent(Now(front), msg);
      case Gossip(_, _, _) => SendEvent(Now(front), last);
      case Answer(_, _, _) => SendEvent(Now(front), last);
      case _ => DaemonEvent(Now(front), last);
    }
  }

  // ---------------------------------------------------------- consequences

  /** In every run, no daemon ever gossips: the registry gets no endpoints, so
      knownPeers offers none to send to. */
  lemma NeverGossips(events: seq<Event>, pk: Key, entries: seq<PeerEntry>, endpoint: string)
    requires IsHistory(events)
    ensures !Enabled(Now(events), Gossip(pk, entries, endpoint))
  {
    HistoryIsGood(events);
    if Enabled(Now(events), Gossip(pk, entries, endpoint)) {
      assert GoodDaemon(Now(events).daemons[pk], Now(events).foreign);
      var k :| 0 <= k < |entries| && endpoint in entries[k].endpoints;
      KnownPeersUseless(Now(events).daemons[pk].core.registry, entries, k);
    }
  }

  /** In every run, whatever a daemon stores came from another program with
      endpoints, and each launched connect goes to a stored entry. */
  lemma StoredIsForeign(events: seq<Event>, pk: Key)
    requires IsHistory(events) && pk in Now(events).daemons
    ensures StoresForeign(Now(events).daemons[pk].store, Now(events).foreign)
  {
    HistoryIsGood(events);
    assert GoodDaemon(Now(events).daemons[pk], Now(events).foreign);
  }

  /** An entry with endpoints is stored when it is received, unless it is about
      the daemon itself or its key is stored already. */
  lemma ReceivedIsStored(events: seq<Event>, pk: Key, msg: Message, k: nat)
    requires IsHistory(events) && Enabled(Now(events), Receive(pk, msg, k))
    ensures var e, before := msg.entries[k], Now(events).daemons[pk].store;
            var after := Handle(Now(events), Receive(pk, msg, k)).daemons[pk].store;
            if e.publicKey != pk && e.publicKey !in before.entries && e.endpoints != [] then
              && after.entries == before.entries[e.publicKey := e]
              && after.launches == before.launches + [Launch(e.publicKey, e.endpoints[0])]
            else after == before
  {
  }

  /** So among these daemons alone peer exchange discovers nobody: unless another
      program sends an entry with endpoints, every store stays empty and no
      connect is ever launched. */
  lemma NothingExchanged(events: seq<Event>, pk: Key)
    requires IsHistory(events) && pk in Now(events).daemons
    requires forall e :: e in Now(events).foreign ==> e.endpoints == []
    ensures Now(events).daemons[pk].store == EMPTY
  {
    StoredIsForeign(events, pk);
    var store := Now(events).daemons[pk].store;
    assert store.entries == map[];
    if store.launches != [] {
      LaunchStored(store, 0);
    }
  }

  lemma LaunchStored(store: Store, i: nat)
    requires OneLaunchEach(store) && i < |store.launches|
    ensures store.launches[i].publicKey in store.entries
  {
  }

  // --------------------------------------- each daemon runs its own components

  /** What one event makes daemon pk's monitor do, and what it delivers to its store. */
  function StepsOf(e: Event, pk: Key): seq<Step> {
    if e.Monitor? && e.pk == pk then [e.step] else []
  }

  ghost function DeliveredBy(s: Mesh, e: Event, pk: Key): seq<PeerEntry>
    requires Enabled(s, e)
  {
    if e.Receive? && e.pk == pk then [e.msg.entries[e.k]] else []
  }

  function StepsAt(events: seq<Event>, pk: Key): seq<Step> {
    if events == [] then [] else StepsAt(events[..|events| - 1], pk) + StepsOf(events[|events| - 1], pk)
  }

  ghost function DeliveredAt(events: seq<Event>, pk: Key): seq<PeerEntry>
    requires IsHistory(events)
  {
    if events == [] then []
    else
      var front := events[..|events| - 1];
      DeliveredAt(front, pk) + DeliveredBy(Now(front), events[|events| - 1], pk)
  }

  lemma {:induction false} IdleBefore(events: seq<Event>, pk: Key)
    requires IsHistory(events) && pk !in Now(events).daemons
    ensures StepsAt(events, pk) == [] && DeliveredAt(events, pk) == []
  {
    if events != [] {
      IdleBefore(events[..|events| - 1], pk);
    }
  }

  lemma ComponentsStep(s: Mesh, e: Event, pk: Key, steps: seq<Step>, arrived: seq<PeerEntry>)
    requires Enabled(s, e) && pk in s.daemons
    requires var d := s.daemons[pk]; d.core == After(d.cfg, steps) && d.store == MergeAll(pk, arrived)
    ensures pk in Handle(s, e).daemons
    ensures var d := Handle(s, e).daemons[pk];
            && d.cfg == s.daemons[pk].cfg && d.core == After(d.cfg, steps + StepsOf(e, pk))
            && d.store == MergeAll(pk, arrived + DeliveredBy(s, e, pk))
  {
    assert steps + [] == steps && arrived + [] == arrived;
    if e.Monitor? && e.pk == pk {
      AfterSnoc(s.daemons[pk].cfg, steps, e.step);
    } else if e.Receive? && e.pk == pk {
      MergeAllSnoc(pk, arrived, e.msg.entries[e.k]);
    }
  }

  /** In every run each daemon's registry is that of its monitor after its own
      steps, and its store that of the peer-exchange protocol after the entries
      delivered to it. */
  lemma {:induction false} ComponentsRun(events: seq<Event>, pk: Key)
    requires IsHistory(events) && pk in Now(events).daemons
    ensures var d := Now(events).daemons[pk];
            d.core == After(d.cfg, StepsAt(events, pk)) && d.store == MergeAll(pk, DeliveredAt(events, pk))
  {
    var front, last := events[..|events| - 1], events[|events| - 1];
    if pk in Now(front).daemons {
      ComponentsRun(front, pk);
      ComponentsStep(Now(front), last, pk, StepsAt(front, pk), DeliveredAt(front, pk));
    } else {
      IdleBefore(front, pk);
    }
  }

  /** In every run a request in flight can be answered by any daemon, and the
      answer in flight then lists its connected peers. */
  lemma RequestIsAnswered(events: seq<Event>, pk: Key, msg: Message, entries: seq<PeerEntry>)
    requires IsHistory(events) && pk in Now(events).daemons && msg in Now(events).sent && msg.request
    requires IsKnownPeers(Now(events).daemons[pk].core.registry, entries)
    ensures Enabled(Now(events), Answer(pk, msg, entries))
    ensures exists m :: m in Handle(Now(events), Answer(pk, msg, entries)).sent && !m.request && m.entries == entries
  {
    assert Message(false, entries) in Handle(Now(events), Answer(pk, msg, entries)).sent;
  }
}
