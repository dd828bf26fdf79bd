/** Many nodes running the DHT of pkg/dht/kademlia.go: bootstrapping, querying,
    registering, answering and learning, in any interleaving.

    Messages are never removed, so they may be lost, delayed, reordered,
    delivered many times and delivered to anybody.  An answer is computed from
    160 separate bucket reads with other steps in between.  `nodeId` stands for
    `NodeID`; nothing is assumed about it, not even that it is injective.
 */
module DhtProtocol {
  import opened Keys
  import opened XorMetric
  import opened RoutingTable
  import opened Closest

  datatype Message =
    | FindNode(senderID: ID, targetID: ID, publicKey: Key,
               wgEndpoint: string, publicEndpoint: string, controlEndpoint: string)
    | FindNodeResp(senderID: ID, contacts: seq<Contact>)

  /** `discovered` lists the calls of the onPeerDiscovered callback, which
      installs the contact in WireGuard. */
  datatype Node = Node(buckets: Buckets, discovered: seq<Contact>)

  /** A running gathering loop, of handleFindNode when `answers`, of KnownPeers
      otherwise: it has read the buckets below `next`. */
  datatype Handler = Handler(node: Key, target: ID, answers: bool, next: nat, gathered: seq<Contact>)

  datatype State = State(nodes: map<Key, Node>, sent: set<Message>, handlers: seq<Handler>)

  datatype Step =
    | Join(pk: Key)
    | Seed(pk: Key, seedKey: Key, seedEndpoint: string)
    | Query(pk: Key, wgEndpoint: string, publicEndpoint: string, controlEndpoint: string)
    | Register(pk: Key, msg: Message, remoteAddr: string, observed: string)
    | Snapshot(pk: Key)
    | ReadBucket(h: nat)
    | Respond(h: nat, answer: seq<Contact>)
    | Learn(pk: Key, msg: Message, k: nat)

  const INIT: State := State(map[], {}, [])

  // --------------------------------------------------------------- steps

  /** The contact handleFindNode registers for the sender. */
  function Registration(msg: Message, remoteAddr: string, observed: string): Contact
    requires msg.FindNode?
  {
    Contact(msg.senderID, msg.publicKey,
            if msg.wgEndpoint == "" then remoteAddr else msg.wgEndpoint,
            if observed != "" then observed else msg.publicEndpoint,
            msg.controlEndpoint)
  }

  ghost predicate Enabled(s: State, step: Step) {
    match step
    case Join(pk) => pk !in s.nodes
    case Seed(pk, _, _) => pk in s.nodes
    case Query(pk, _, _, _) => pk in s.nodes
    case Register(pk, msg, _, _) => pk in s.nodes && msg in s.sent && msg.FindNode?
    case Snapshot(pk) => pk in s.nodes
    case ReadBucket(h) => h < |s.handlers| && s.handlers[h].next < BUCKETS && s.handlers[h].node in s.nodes
    case Respond(h, answer) =>
      h < |s.handlers| && s.handlers[h].answers && s.handlers[h].next == BUCKETS
      && IsClosest(s.handlers[h].target, s.handlers[h].gathered, BUCKET_SIZE, answer)
    case Learn(pk, msg, k) => pk in s.nodes && msg in s.sent && msg.FindNodeResp? && k < |msg.contacts|
  }

  ghost function Apply(nodeId: Key -> ID, s: State, step: Step): State
    requires Enabled(s, step)
  {
    match step
    case Join(pk) => s.(nodes := s.nodes[pk := Node(Empty(), [])])
    case Seed(pk, seedKey, seedEndpoint) =>
      Insert(nodeId, s, pk, Contact(nodeId(seedKey), seedKey, seedEndpoint, "", ""), false)
    case Query(pk, wgEndpoint, publicEndpoint, controlEndpoint) =>
      s.(sent := s.sent + {FindNode(nodeId(pk), nodeId(pk), pk, wgEndpoint, publicEndpoint, controlEndpoint)})
    case Register(pk, msg, remoteAddr, observed) =>
      var s1 := Insert(nodeId, s, pk, Registration(msg, remoteAddr, observed),
                       msg.publicKey != "" && msg.publicKey != pk);
      s1.(handlers := s1.handlers + [Handler(pk, msg.targetID, true, 0, [])])
    case Snapshot(pk) => s.(handlers := s.handlers + [Handler(pk, nodeId(pk), false, 0, [])])
    case ReadBucket(h) =>
      var hd := s.handlers[h];
      var read := hd.gathered + s.nodes[hd.node].buckets[hd.next];
      s.(handlers := s.handlers[h := hd.(next := hd.next + 1, gathered := read)])
    case Respond(h, answer) =>
      s.(sent := s.sent + {FindNodeResp(nodeId(s.handlers[h].node), answer)})
    case Learn(pk, msg, k) =>
      var c := msg.contacts[k];
      if c.id == nodeId(pk) then s else Insert(nodeId, s, pk, c, c.publicKey != "")
  }

  /** table.insert at node pk, followed by the callback when `notify`. */
  ghost function Insert(nodeId: Key -> ID, s: State, pk: Key, c: Contact, notify: bool): State
    requires pk in s.nodes
  {
    var n := s.nodes[pk];
    s.(nodes := s.nodes[pk := Node(InsertTable(nodeId(pk), n.buckets, c),
                                   if notify then n.discovered + [c] else n.discovered)])
  }

  ghost predicate IsRun(nodeId: Key -> ID, steps: seq<Step>)
    decreases |steps|, 0
  {
    steps == [] ||
    (IsRun(nodeId, steps[..|steps| - 1]) && Enabled(After(nodeId, steps[..|steps| - 1]), steps[|steps| - 1]))
  }

  /** The state after a run. */
  ghost function After(nodeId: Key -> ID, steps: seq<Step>): State
    requires IsRun(nodeId, steps)
    decreases |steps|, 1
  {
    if steps == [] then INIT
    else Apply(nodeId, After(nodeId, steps[..|steps| - 1]), steps[|steps| - 1])
  }

  // ----------------------------------------------------------- invariant

  predicate Honest(nodeId: Key -> ID, c: Contact) {
    c.id == nodeId(c.publicKey)
  }

  ghost predicate AllHonest(nodeId: Key -> ID, s: seq<Contact>) {
    forall k :: 0 <= k < |s| ==> Honest(nodeId, s[k])
  }

  ghost predicate HonestTable(nodeId: Key -> ID, t: Buckets) {
    forall i :: 0 <= i < BUCKETS ==> AllHonest(nodeId, t[i])
  }

  ghost predicate GoodNode(nodeId: Key -> ID, pk: Key, n: Node) {
    && WellFormed(nodeId(pk), n.buckets)
    && HonestTable(nodeId, n.buckets)
    && AllHonest(nodeId, n.discovered)
    && forall k :: 0 <= k < |n.discovered| ==> n.discovered[k].publicKey != pk && n.discovered[k].publicKey != ""
  }

  ghost predicate GoodMessage(nodeId: Key -> ID, m: Message) {
    match m
    case FindNode(senderID, _, publicKey, _, _, _) => senderID == nodeId(publicKey)
    case FindNodeResp(_, contacts) => AllHonest(nodeId, contacts)
  }

  ghost predicate GoodHandler(nodeId: Key -> ID, s: State, h: Handler) {
    && h.node in s.nodes
    && h.next <= BUCKETS
    && AllHonest(nodeId, h.gathered)
    && DistinctIds(h.gathered)
    && forall k :: 0 <= k < |h.gathered| ==> BucketIndex(nodeId(h.node), h.gathered[k].id) < h.next
  }

  ghost predicate Inv(nodeId: Key -> ID, s: State) {
    && (forall pk :: pk in s.nodes ==> GoodNode(nodeId, pk, s.nodes[pk]))
    && (forall m :: m in s.sent ==> GoodMessage(nodeId, m))
    && (forall h :: 0 <= h < |s.handlers| ==> GoodHandler(nodeId, s, s.handlers[h]))
  }

  lemma InsertKeepsHonest(nodeId: Key -> ID, self: ID, t: Buckets, c: Contact)
    requires HonestTable(nodeId, t) && Honest(nodeId, c)
    ensures HonestTable(nodeId, InsertTable(self, t, c))
  {
    var i := BucketIndex(self, c.id);
    if i < BUCKETS {
      assert AllHonest(nodeId, t[i]);
      assert AllHonest(nodeId, InsertBucket(t[i], c));
    }
  }

  lemma InsertKeepsInv(nodeId: Key -> ID, s: State, pk: Key, c: Contact, notify: bool)
    requires Inv(nodeId, s) && pk in s.nodes && Honest(nodeId, c)
    requires notify ==> c.publicKey != pk && c.publicKey != ""
    ensures Inv(nodeId, Insert(nodeId, s, pk, c, notify))
  {
    var n := s.nodes[pk];
    assert GoodNode(nodeId, pk, n);
    InsertKeepsWellFormed(nodeId(pk), n.buckets, c);
    InsertKeepsHonest(nodeId, nodeId(pk), n.buckets, c);
    assert GoodNode(nodeId, pk, Insert(nodeId, s, pk, c, notify).nodes[pk]);
    forall h | 0 <= h < |s.handlers| ensures GoodHandler(nodeId, Insert(nodeId, s, pk, c, notify), s.handlers[h]) {
      assert GoodHandler(nodeId, s, s.handlers[h]);
    }
  }

  lemma ReadKeepsInv(nodeId: Key -> ID, s: State, h: nat)
    requires Inv(nodeId, s) && Enabled(s, ReadBucket(h))
    ensures Inv(nodeId, Apply(nodeId, s, ReadBucket(h)))
  {
    var s', hd := Apply(nodeId, s, ReadBucket(h)), s.handlers[h];
    assert GoodHandler(nodeId, s, hd) && GoodNode(nodeId, hd.node, s.nodes[hd.node]);
    assert WellFormedBucket(nodeId(hd.node), hd.next, s.nodes[hd.node].buckets[hd.next]);
    assert AllHonest(nodeId, s.nodes[hd.node].buckets[hd.next]);
    assert GoodHandler(nodeId, s', s'.handlers[h]);
    forall j | 0 <= j < |s.handlers| && j != h ensures GoodHandler(nodeId, s', s'.handlers[j]) {
      assert GoodHandler(nodeId, s, s.handlers[j]);
    }
  }

  lemma RespondKeepsInv(nodeId: Key -> ID, s: State, h: nat, answer: seq<Contact>)
    requires Inv(nodeId, s) && Enabled(s, Respond(h, answer))
    ensures Inv(nodeId, Apply(nodeId, s, Respond(h, answer)))
  {
    var s', hd := Apply(nodeId, s, Respond(h, answer)), s.handlers[h];
    assert GoodHandler(nodeId, s, hd);
    forall k | 0 <= k < |answer| ensures Honest(nodeId, answer[k]) {
      assert answer[k] in hd.gathered;
    }
    assert GoodMessage(nodeId, FindNodeResp(nodeId(hd.node), answer));
    forall j | 0 <= j < |s.handlers| ensures GoodHandler(nodeId, s', s'.handlers[j]) {
      assert GoodHandler(nodeId, s, s.handlers[j]);
    }
  }

  lemma RegisterKeepsInv(nodeId: Key -> ID, s: State, step: Step)
    requires step.Register? && Inv(nodeId, s) && Enabled(s, step)
    ensures Inv(nodeId, Apply(nodeId, s, step))
  {
    var c := Registration(step.msg, step.remoteAddr, step.observed);
    assert GoodMessage(nodeId, step.msg);
    var notify := step.msg.publicKey != "" && step.msg.publicKey != step.pk;
    InsertKeepsInv(nodeId, s, step.pk, c, notify);
    var s1, s' := Insert(nodeId, s, step.pk, c, notify), Apply(nodeId, s, step);
    forall h | 0 <= h < |s'.handlers| ensures GoodHandler(nodeId, s', s'.handlers[h]) {
      if h < |s1.handlers| { assert GoodHandler(nodeId, s1, s1.handlers[h]); }
    }
  }

  lemma JoinKeepsInv(nodeId: Key -> ID, s: State, pk: Key)
    requires Inv(nodeId, s) && Enabled(s, Join(pk))
    ensures Inv(nodeId, Apply(nodeId, s, Join(pk)))
  {
    var s' := Apply(nodeId, s, Join(pk));
    assert WellFormed(nodeId(pk), Empty());
    assert GoodNode(nodeId, pk, s'.nodes[pk]);
    forall h | 0 <= h < |s.handlers| ensures GoodHandler(nodeId, s', s'.handlers[h]) {
      assert GoodHandler(nodeId, s, s.handlers[h]);
    }
  }

  lemma SnapshotKeepsInv(nodeId: Key -> ID, s: State, pk: Key)
    requires Inv(nodeId, s) && Enabled(s, Snapshot(pk))
    ensures Inv(nodeId, Apply(nodeId, s, Snapshot(pk)))
  {
    var s' := Apply(nodeId, s, Snapshot(pk));
    forall h | 0 <= h < |s'.handlers| ensures GoodHandler(nodeId, s', s'.handlers[h]) {
      if h < |s.handlers| { assert GoodHandler(nodeId, s, s.handlers[h]); }
    }
  }

  lemma QueryKeepsInv(nodeId: Key -> ID, s: State, step: Step)
    requires step.Query? && Inv(nodeId, s) && Enabled(s, step)
    ensures Inv(nodeId, Apply(nodeId, s, step))
  {
    var s' := Apply(nodeId, s, step);
    forall h | 0 <= h < |s.handlers| ensures GoodHandler(nodeId, s', s'.handlers[h]) {
      assert GoodHandler(nodeId, s, s.handlers[h]);
    }
  }

  /** handleFindNodeResp calls back without comparing public keys; that the
      node's own key never gets through rests on the honesty of every contact. */
  lemma LearnKeepsInv(nodeId: Key -> ID, s: State, step: Step)
    requires step.Learn? && Inv(nodeId, s) && Enabled(s, step)
    ensures Inv(nodeId, Apply(nodeId, s, step))
  {
    var c := step.msg.contacts[step.k];
    assert GoodMessage(nodeId, step.msg);
    assert Honest(nodeId, c);
    if c.id != nodeId(step.pk) {
      assert c.publicKey != step.pk;
      InsertKeepsInv(nodeId, s, step.pk, c, c.publicKey != "");
    }
  }

  lemma StepKeepsInv(nodeId: Key -> ID, s: State, step: Step)
    requires Inv(nodeId, s) && Enabled(s, step)
    ensures Inv(nodeId, Apply(nodeId, s, step))
  {
    match step
    case Join(pk) => JoinKeepsInv(nodeId, s, pk);
    case Seed(pk, seedKey, seedEndpoint) =>
      InsertKeepsInv(nodeId, s, pk, Contact(nodeId(seedKey), seedKey, seedEndpoint, "", ""), false);
    case Query(_, _, _, _) => QueryKeepsInv(nodeId, s, step);
    case Register(_, _, _, _) => RegisterKeepsInv(nodeId, s, step);
    case Snapshot(pk) => SnapshotKeepsInv(nodeId, s, pk);
    case ReadBucket(h) => ReadKeepsInv(nodeId, s, h);
    case Respond(h, answer) => RespondKeepsInv(nodeId, s, h, answer);
    case Learn(_, _, _) => LearnKeepsInv(nodeId, s, step);
  }

  lemma {:induction false} RunKeepsInv(nodeId: Key -> ID, steps: seq<Step>)
    requires IsRun(nodeId, steps)
    ensures Inv(nodeId, After(nodeId, steps))
  {
    if steps != [] {
      RunKeepsInv(nodeId, steps[..|steps| - 1]);
      StepKeepsInv(nodeId, After(nodeId, steps[..|steps| - 1]), steps[|steps| - 1]);
    }
  }

  // --------------------------------------------------------- consequences

  ghost predicate DistinctKeys(s: seq<Contact>) {
    forall i, j :: 0 <= i < j < |s| ==> s[i].publicKey != s[j].publicKey
  }

  lemma HonestKeysDistinct(nodeId: Key -> ID, s: seq<Contact>)
    requires AllHonest(nodeId, s) && DistinctIds(s)
    ensures DistinctKeys(s)
  {
    forall i, j | 0 <= i < j < |s| ensures s[i].publicKey != s[j].publicKey {
      assert Honest(nodeId, s[i]) && Honest(nodeId, s[j]);
      assert s[i].id != s[j].id;
    }
  }

  lemma HonestFlatten(nodeId: Key -> ID, t: Buckets)
    requires HonestTable(nodeId, t)
    ensures AllHonest(nodeId, Flatten(t))
  {
    forall k | 0 <= k < |Flatten(t)| ensures Honest(nodeId, Flatten(t)[k]) {
      FlattenMember(t, Flatten(t)[k]);
      var i :| 0 <= i < BUCKETS && Flatten(t)[k] in t[i];
      assert AllHonest(nodeId, t[i]);
    }
  }

  /** In every run, at every node: each contact is honest, the node's own ID is
      not held, no public key is held twice, and the callback is never called
      for the node's own key. */
  lemma TablesStayHonest(nodeId: Key -> ID, steps: seq<Step>, pk: Key)
    requires IsRun(nodeId, steps) && pk in After(nodeId, steps).nodes
    ensures var n := After(nodeId, steps).nodes[pk];
            && AllHonest(nodeId, Flatten(n.buckets))
            && !Holds(n.buckets, nodeId(pk))
            && DistinctKeys(Flatten(n.buckets))
            && (forall k :: 0 <= k < |n.discovered| ==> n.discovered[k].publicKey != pk)
  {
    RunKeepsInv(nodeId, steps);
    var n := After(nodeId, steps).nodes[pk];
    assert GoodNode(nodeId, pk, n);
    HonestFlatten(nodeId, n.buckets);
    NeverHoldsSelf(nodeId(pk), n.buckets);
    FlattenDistinct(nodeId(pk), n.buckets, 0);
    HonestKeysDistinct(nodeId, Flatten(n.buckets));
  }

  /** In every run, every message in flight is honest: a query carries its
      sender's own ID and an answer carries honest contacts only. */
  lemma MessagesStayHonest(nodeId: Key -> ID, steps: seq<Step>, m: Message)
    requires IsRun(nodeId, steps) && m in After(nodeId, steps).sent
    ensures m.FindNode? ==> m.senderID == nodeId(m.publicKey)
    ensures m.FindNodeResp? ==> AllHonest(nodeId, m.contacts)
  {
    RunKeepsInv(nodeId, steps);
    assert GoodMessage(nodeId, m);
  }

  /** In every run, also a list gathered bucket by bucket while other steps
      interleave repeats neither an ID nor a public key. */
  lemma GatheredKeysDistinct(nodeId: Key -> ID, steps: seq<Step>, h: nat)
    requires IsRun(nodeId, steps) && h < |After(nodeId, steps).handlers|
    ensures DistinctIds(After(nodeId, steps).handlers[h].gathered)
    ensures DistinctKeys(After(nodeId, steps).handlers[h].gathered)
  {
    RunKeepsInv(nodeId, steps);
    assert GoodHandler(nodeId, After(nodeId, steps), After(nodeId, steps).handlers[h]);
    HonestKeysDistinct(nodeId, After(nodeId, steps).handlers[h].gathered);
  }
}
