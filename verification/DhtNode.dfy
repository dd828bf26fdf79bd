/** The `DHT` object of pkg/dht/kademlia.go: the state changes of its handlers,
    tied step by step to the protocol of module DhtProtocol.
 */
module DhtNode {
  import opened Keys
  import opened XorMetric
  import opened RoutingTable
  import opened Closest
  import opened DhtTable
  import opened DhtProtocol
  import opened Gathering

  /** What one contact of an answer adds to the inserts, and to the callbacks. */
  function Inserted(self: ID, c: Contact): seq<Contact> {
    if c.id != self then [c] else []
  }

  function Announced(self: ID, c: Contact): seq<Contact> {
    if c.id != self && c.publicKey != "" then [c] else []
  }

  /** The insert history after the first k contacts of an answer. */
  function HistoryAfter(self: ID, history: seq<Contact>, contacts: seq<Contact>, k: nat): seq<Contact>
    requires k <= |contacts|
  {
    if k == 0 then history else HistoryAfter(self, history, contacts, k - 1) + Inserted(self, contacts[k - 1])
  }

  /** The callbacks after the first k contacts of an answer. */
  function CallsAfter(self: ID, calls: seq<Contact>, contacts: seq<Contact>, k: nat): seq<Contact>
    requires k <= |contacts|
  {
    if k == 0 then calls else CallsAfter(self, calls, contacts, k - 1) + Announced(self, contacts[k - 1])
  }

  /** After k contacts of an answer the node has these inserts and callbacks. */
  ghost predicate Learnt(self: ID, history0: seq<Contact>, calls0: seq<Contact>, contacts: seq<Contact>, k: nat,
                         history: seq<Contact>, calls: seq<Contact>)
  {
    && k <= |contacts|
    && history == HistoryAfter(self, history0, contacts, k) && calls == CallsAfter(self, calls0, contacts, k)
  }

  /** The contact is not the node itself, and has a key where that matters. */
  predicate Counts(self: ID, keyed: bool, c: Contact) {
    c.id != self && (keyed ==> c.publicKey != "")
  }

  /** `more` are exactly the contacts that count, and all of them in order if all do. */
  ghost predicate Keeps(more: seq<Contact>, contacts: seq<Contact>, self: ID, keyed: bool) {
    && (forall c :: c in more <==> c in contacts && Counts(self, keyed, c))
    && ((forall c :: c in contacts ==> Counts(self, keyed, c)) ==> more == contacts)
  }

  lemma KeepsNext(more: seq<Contact>, contacts: seq<Contact>, self: ID, keyed: bool, c: Contact)
    requires Keeps(more, contacts, self, keyed)
    ensures Keeps(more + (if Counts(self, keyed, c) then [c] else []), contacts + [c], self, keyed)
  {
    assert forall d :: d in contacts ==> d in contacts + [c];
    assert c in contacts + [c];
  }

  /** What was appended since `start` keeps these contacts. */
  ghost predicate Grown(start: seq<Contact>, after: seq<Contact>, contacts: seq<Contact>, self: ID, keyed: bool) {
    start <= after && Keeps(after[|start|..], contacts, self, keyed)
  }

  lemma GrownNext(start: seq<Contact>, after: seq<Contact>, contacts: seq<Contact>, self: ID, keyed: bool, c: Contact,
                  more: seq<Contact>)
    requires Grown(start, after, contacts, self, keyed) && more == if Counts(self, keyed, c) then [c] else []
    ensures Grown(start, after + more, contacts + [c], self, keyed)
  {
    KeepsNext(after[|start|..], contacts, self, keyed, c);
    assert (after + more)[|start|..] == after[|start|..] + more;
  }

  lemma {:induction false} InsertsLearnt(self: ID, history: seq<Contact>, contacts: seq<Contact>, k: nat)
    requires k <= |contacts|
    ensures Grown(history, HistoryAfter(self, history, contacts, k), contacts[..k], self, false)
  {
    if k > 0 {
      var c := contacts[k - 1];
      InsertsLearnt(self, history, contacts, k - 1);
      assert contacts[..k] == contacts[..k - 1] + [c];
      var before := HistoryAfter(self, history, contacts, k - 1);
      GrownNext(history, before, contacts[..k - 1], self, false, c, Inserted(self, c));
    }
  }

  lemma {:induction false} CallsLearnt(self: ID, calls: seq<Contact>, contacts: seq<Contact>, k: nat)
    requires k <= |contacts|
    ensures Grown(calls, CallsAfter(self, calls, contacts, k), contacts[..k], self, true)
  {
    if k > 0 {
      var c := contacts[k - 1];
      CallsLearnt(self, calls, contacts, k - 1);
      assert contacts[..k] == contacts[..k - 1] + [c];
      GrownNext(calls, CallsAfter(self, calls, contacts, k - 1), contacts[..k - 1], self, true, c, Announced(self, c));
    }
  }

  /** What is learnt of an answer: exactly its contacts other than the node itself
      are inserted, and exactly those with a key announced; all of them, in order,
      when the node itself is not among them and all have keys. */
  lemma LearntAll(self: ID, history: seq<Contact>, calls: seq<Contact>, contacts: seq<Contact>,
                  history': seq<Contact>, calls': seq<Contact>)
    requires Learnt(self, history, calls, contacts, |contacts|, history', calls')
    ensures history <= history' && Keeps(history'[|history|..], contacts, self, false)
    ensures calls <= calls' && Keeps(calls'[|calls|..], contacts, self, true)
  {
    assert contacts[..|contacts|] == contacts;
    InsertsLearnt(self, history, contacts, |contacts|);
    CallsLearnt(self, calls, contacts, |contacts|);
  }

  lemma LearntNext(self: ID, history0: seq<Contact>, calls0: seq<Contact>, contacts: seq<Contact>, k: nat,
                   history: seq<Contact>, calls: seq<Contact>)
    requires Learnt(self, history0, calls0, contacts, k, history, calls) && k < |contacts|
    ensures Learnt(self, history0, calls0, contacts, k + 1,
                   history + Inserted(self, contacts[k]), calls + Announced(self, contacts[k]))
  {
  }

  class Dht {
    const publicKey: Key
    const table: Table
    /** The calls of onPeerDiscovered so far. */
    ghost var discovered: seq<Contact>

    ghost predicate Valid()
      reads this, table, table.buckets
    {
      table.Valid()
    }

    ghost function View(): Node
      reads this, table, table.buckets
      requires Valid()
    {
      Node(table.buckets[..], discovered)
    }

    constructor (nodeId: Key -> ID, publicKey: Key)
      ensures Valid() && fresh(table) && fresh(table.buckets)
      ensures this.publicKey == publicKey && table.selfID == nodeId(publicKey)
      ensures View() == Node(Empty(), [])
    {
      this.publicKey := publicKey;
      this.table := new Table(nodeId(publicKey));
      discovered := [];
    }

    /** `schedule` are the inserts of other handlers that land while the answer is gathered. */
    method HandleFindNode(msg: Message, remoteAddr: string, observed: string, schedule: seq<seq<Contact>>)
        returns (resp: Message)
      requires Valid() && msg.FindNode? && |schedule| == BUCKETS
      modifies this, table, table.buckets
      ensures Valid()
      ensures |table.history| > |old(table.history)|
      ensures var c := table.history[|old(table.history)|];
              && c.id == msg.senderID && c.publicKey == msg.publicKey && c.controlEndpoint == msg.controlEndpoint
              && c.endpoint == (if msg.wgEndpoint != "" then msg.wgEndpoint else remoteAddr)
              && c.publicEndpoint == (if observed != "" then observed else msg.publicEndpoint)
              && table.history == old(table.history) + [c] + Flatten(schedule)
              && discovered == old(discovered) + (if msg.publicKey != "" && msg.publicKey != publicKey then [c] else [])
              && resp.FindNodeResp? && resp.senderID == table.selfID
              && IsClosest(msg.targetID, Flatten(Pieces(table.selfID, old(table.history) + [c], schedule)), 8,
                           resp.contacts)
    {
      var ep := msg.wgEndpoint;
      if ep == "" {
        ep := remoteAddr;
      }
      var contact := Contact(msg.senderID, msg.publicKey, ep, msg.publicEndpoint, msg.controlEndpoint);
      if observed != "" {
        contact := contact.(publicEndpoint := observed);
      }
      table.Insert(contact);
      if msg.publicKey != "" && msg.publicKey != publicKey {
        discovered := discovered + [contact];
      }
      var closest := table.ClosestContacts(msg.targetID, BUCKET_SIZE, schedule);
      resp := FindNodeResp(table.selfID, closest);
    }

    /** The loop body of handleFindNodeResp. */
    method LearnContact(c: Contact)
      requires Valid()
      modifies this, table, table.buckets
      ensures Valid()
      ensures table.history == old(table.history) + (if c.id != table.selfID then [c] else [])
      ensures discovered == old(discovered) + (if c.id != table.selfID && c.publicKey != "" then [c] else [])
    {
      if c.id != table.selfID {
        table.Insert(c);
        if c.publicKey != "" {
          discovered := discovered + [c];
        }
      }
    }

    /** The node has learnt the first i contacts of an answer. */
    ghost predicate HasLearnt(history: seq<Contact>, calls: seq<Contact>, contacts: seq<Contact>, i: nat)
      reads this, table, table.buckets
    {
      Valid() && Learnt(table.selfID, history, calls, contacts, i, table.history, discovered)
    }

    /** One turn of the loop of handleFindNodeResp. */
    method LearnNext(contacts: seq<Contact>, i: nat, ghost history: seq<Contact>, ghost calls: seq<Contact>)
      requires i < |contacts| && HasLearnt(history, calls, contacts, i)
      modifies this, table, table.buckets
      ensures HasLearnt(history, calls, contacts, i + 1)
    {
      LearntNext(table.selfID, history, calls, contacts, i, table.history, discovered);
      LearnContact(contacts[i]);
    }

    method HandleFindNodeResp(msg: Message)
      requires Valid() && msg.FindNodeResp?
      modifies this, table, table.buckets
      ensures Valid()
      ensures Learnt(table.selfID, old(table.history), old(discovered), msg.contacts, |msg.contacts|, table.history,
                     discovered)
    {
      ghost var history, calls := table.history, discovered;
      for i := 0 to |msg.contacts|
        invariant HasLearnt(history, calls, msg.contacts, i)
      {
        LearnNext(msg.contacts, i, history, calls);
      }
    }
  }

  // ------------------------------------------- the handlers are the steps

  /** The state with node pk replaced. */
  ghost function Put(s: State, pk: Key, n: Node): State {
    s.(nodes := s.nodes[pk := n])
  }

  /** The protocol's Learn step does to the node's history and callbacks what
      LearnContact does, and touches nothing else. */
  lemma LearnStepIsLearnContact(nodeId: Key -> ID, s: State, pk: Key, msg: Message, k: nat, history: seq<Contact>,
                                calls: seq<Contact>)
    requires pk in s.nodes && msg in s.sent && msg.FindNodeResp? && k < |msg.contacts|
    requires s.nodes[pk] == Node(Replay(nodeId(pk), history), calls)
    ensures var c := msg.contacts[k];
            Apply(nodeId, s, Learn(pk, msg, k)) ==
            if c.id == nodeId(pk) then s
            else Put(s, pk, Node(Replay(nodeId(pk), history + [c]), calls + (if c.publicKey != "" then [c] else [])))
  {
    if msg.contacts[k].id != nodeId(pk) {
      LearnOther(nodeId, s, pk, msg.contacts[k], history, calls);
    }
  }

  lemma LearnOther(nodeId: Key -> ID, s: State, pk: Key, c: Contact, history: seq<Contact>, calls: seq<Contact>)
    requires pk in s.nodes && s.nodes[pk] == Node(Replay(nodeId(pk), history), calls)
    ensures Insert(nodeId, s, pk, c, c.publicKey != "") ==
            Put(s, pk, Node(Replay(nodeId(pk), history + [c]), calls + (if c.publicKey != "" then [c] else [])))
  {
    assert calls + [] == calls;
    InsertAllSnoc(nodeId(pk), Empty(), history, c);
  }

  /** The protocol's Register step does to the node what HandleFindNode does
      before it gathers its answer, and starts the gathering. */
  lemma RegisterStepIsHandleFindNode(nodeId: Key -> ID, s: State, step: Step, history: seq<Contact>,
                                     calls: seq<Contact>)
    requires step.Register? && Enabled(s, step)
    requires s.nodes[step.pk] == Node(Replay(nodeId(step.pk), history), calls)
    ensures var c := Registration(step.msg, step.remoteAddr, step.observed);
            var called := if step.msg.publicKey != "" && step.msg.publicKey != step.pk then [c] else [];
            Apply(nodeId, s, step) ==
            Put(s, step.pk, Node(Replay(nodeId(step.pk), history + [c]), calls + called))
              .(handlers := s.handlers + [Handler(step.pk, step.msg.targetID, true, 0, [])])
  {
    assert calls + [] == calls;
    InsertAllSnoc(nodeId(step.pk), Empty(), history, Registration(step.msg, step.remoteAddr, step.observed));
  }

  /** In every run, a node that holds a querying peer right after registering it
      holds it at the endpoint of the query, or at the address it came from, and
      with the public endpoint that was observed of it rather than the one it
      reports; the callback gets the same. */
  lemma RegisteredAs(nodeId: Key -> ID, steps: seq<Step>, step: Step, i: nat, k: nat)
    requires IsRun(nodeId, steps) && step.Register? && Enabled(After(nodeId, steps), step) && i < BUCKETS
    requires var t := Apply(nodeId, After(nodeId, steps), step).nodes[step.pk].buckets;
             k < |t[i]| && t[i][k].id == step.msg.senderID
    ensures var held := Apply(nodeId, After(nodeId, steps), step).nodes[step.pk].buckets[i][k];
            && held.endpoint == (if step.msg.wgEndpoint != "" then step.msg.wgEndpoint else step.remoteAddr)
            && (step.observed != "" ==> held.publicEndpoint == step.observed)
            && (step.observed == "" && step.msg.publicEndpoint != "" ==> held.publicEndpoint == step.msg.publicEndpoint)
            && (!Holds(After(nodeId, steps).nodes[step.pk].buckets, held.id) ==>
                  held.publicKey == step.msg.publicKey && held.controlEndpoint == step.msg.controlEndpoint)
    ensures var old', new' := After(nodeId, steps).nodes[step.pk].discovered,
                              Apply(nodeId, After(nodeId, steps), step).nodes[step.pk].discovered;
            if step.msg.publicKey == "" || step.msg.publicKey == step.pk then new' == old'
            else
              && |new'| == |old'| + 1 && new'[..|old'|] == old'
              && new'[|old'|].id == step.msg.senderID && new'[|old'|].publicKey == step.msg.publicKey
              && new'[|old'|].endpoint == (if step.msg.wgEndpoint != "" then step.msg.wgEndpoint else step.remoteAddr)
              && new'[|old'|].publicEndpoint == (if step.observed != "" then step.observed else step.msg.publicEndpoint)
  {
    var n := After(nodeId, steps).nodes[step.pk];
    RunKeepsInv(nodeId, steps);
    assert GoodNode(nodeId, step.pk, n);
    HeldAfterInsert(nodeId(step.pk), n.buckets, Registration(step.msg, step.remoteAddr, step.observed), i, k);
  }

  /** In every run, a seed that a node holds right after bootstrapping from it is
      held at the endpoint it was given with, and under its own key if it is new. */
  lemma SeededAs(nodeId: Key -> ID, steps: seq<Step>, step: Step, i: nat, k: nat)
    requires IsRun(nodeId, steps) && step.Seed? && Enabled(After(nodeId, steps), step) && i < BUCKETS
    requires var t := Apply(nodeId, After(nodeId, steps), step).nodes[step.pk].buckets;
             k < |t[i]| && t[i][k].id == nodeId(step.seedKey)
    ensures var held := Apply(nodeId, After(nodeId, steps), step).nodes[step.pk].buckets[i][k];
            && held.endpoint == step.seedEndpoint
            && (!Holds(After(nodeId, steps).nodes[step.pk].buckets, held.id) ==>
                  held.publicKey == step.seedKey && held.publicEndpoint == "" && held.controlEndpoint == "")
  {
    var n := After(nodeId, steps).nodes[step.pk];
    RunKeepsInv(nodeId, steps);
    assert GoodNode(nodeId, step.pk, n);
    var seed := Contact(nodeId(step.seedKey), step.seedKey, step.seedEndpoint, "", "");
    HeldAfterInsert(nodeId(step.pk), n.buckets, seed, i, k);
  }

  /** In every run, every query in flight was sent by some node about itself, with
      the endpoints that node had, and every answer by a node under its own ID. */
  lemma {:induction false} SentBy(nodeId: Key -> ID, steps: seq<Step>, m: Message) returns (i: nat)
    requires IsRun(nodeId, steps) && m in After(nodeId, steps).sent
    ensures i < |steps| && IsRun(nodeId, steps[..i]) && Enabled(After(nodeId, steps[..i]), steps[i])
    ensures m.FindNode? ==>
              && steps[i].Query? && m.senderID == m.targetID == nodeId(steps[i].pk) && m.publicKey == steps[i].pk
              && m.wgEndpoint == steps[i].wgEndpoint && m.publicEndpoint == steps[i].publicEndpoint
              && m.controlEndpoint == steps[i].controlEndpoint
    ensures m.FindNodeResp? ==>
              && steps[i].Respond? && m.contacts == steps[i].answer
              && m.senderID == nodeId(After(nodeId, steps[..i]).handlers[steps[i].h].node)
    decreases |steps|
  {
    var n := |steps| - 1;
    var front := steps[..n];
    if m in After(nodeId, front).sent {
      i := SentBy(nodeId, front, m);
      assert front[..i] == steps[..i];
    } else {
      i := n;
    }
  }

  /** The protocol's Register, ReadBucket and Respond steps together are
      HandleFindNode: in every run the answer to a query that was registered at
      step i is the closest 8 of what the gathering loop reads from the node's
      table with the sender registered, with the inserts that the run's steps
      make at the node between the reads. */
  lemma RespondIsHandleFindNode(nodeId: Key -> ID, steps: seq<Step>, i: nat, h: nat, answer: seq<Contact>)
    requires IsRun(nodeId, steps) && i < |steps| && IsRun(nodeId, steps[..i]) && IsRun(nodeId, steps[..i + 1])
    requires steps[i].Register? && Enabled(After(nodeId, steps[..i]), steps[i])
             && h == |After(nodeId, steps[..i]).handlers|
    requires Enabled(After(nodeId, steps), Respond(h, answer))
    ensures var c := Registration(steps[i].msg, steps[i].remoteAddr, steps[i].observed);
            var pk := steps[i].pk;
            var history, x := InsertsAt(nodeId, steps[..i], pk), InterferenceOf(nodeId, steps, i + 1, h, pk);
            && |x.schedule| == BUCKETS
            && InsertsAt(nodeId, steps, pk) == ((history + [c]) + Flatten(x.schedule)) + x.later
            && IsClosest(steps[i].msg.targetID, Flatten(Pieces(nodeId(pk), history + [c], x.schedule)), BUCKET_SIZE,
                         answer)
  {
    OneStep(nodeId, steps, i);
    HandlerIsGather(nodeId, steps, i + 1, h);
    InterferenceIsInserts(nodeId, steps, i + 1, h, steps[i].pk);
  }

  lemma OneStep(nodeId: Key -> ID, steps: seq<Step>, i: nat)
    requires i < |steps| && IsRun(nodeId, steps[..i]) && IsRun(nodeId, steps[..i + 1])
    requires steps[i].Register? && Enabled(After(nodeId, steps[..i]), steps[i])
    ensures After(nodeId, steps[..i + 1]) == Apply(nodeId, After(nodeId, steps[..i]), steps[i])
    ensures InsertsAt(nodeId, steps[..i + 1], steps[i].pk) ==
            InsertsAt(nodeId, steps[..i], steps[i].pk) +
            [Registration(steps[i].msg, steps[i].remoteAddr, steps[i].observed)]
  {
    assert steps[..i + 1][..i] == steps[..i];
  }

  // ------------------------------------------------------- asking for oneself

  /** Every query asks for the sender's own ID, and the sender is registered
      before the answer is computed.  So the nearest contact of an undisturbed
      answer is the sender itself, exactly when the responder could admit it:
      it is not the responder (which has no bucket for itself), and it was
      known already or its bucket had room. */
  lemma SelfQueryAnswersSelf(self: ID, t: Buckets, c: Contact, r: seq<Contact>)
    requires WellFormed(self, t)
    requires IsClosest(c.id, Flatten(InsertTable(self, t, c)), BUCKET_SIZE, r)
    ensures (r != [] && r[0].id == c.id) <==>
              BucketIndex(self, c.id) < BUCKETS && (Holds(t, c.id) || |t[BucketIndex(self, c.id)]| < BUCKET_SIZE)
  {
    var t' := InsertTable(self, t, c);
    InsertKeepsWellFormed(self, t, c);
    HoldsAfterInsert(self, t, c, c.id);
    HoldsInOwnBucket(self, t, c.id);
    HoldsHasId(t', c.id);
    if HasId(Flatten(t'), c.id) {
      var k :| 0 <= k < |Flatten(t')| && Flatten(t')[k].id == c.id;
      NearestFirst(c.id, Flatten(t'), r, Flatten(t')[k]);
    } else if r != [] {
      assert r[0] in Flatten(t');
    }
  }

  /** A contact at distance zero heads the answer. */
  lemma NearestFirst(target: ID, all: seq<Contact>, r: seq<Contact>, c: Contact)
    requires c in all && c.id == target && IsClosest(target, all, BUCKET_SIZE, r)
    ensures r != [] && r[0].id == target
  {
    BucketOfSelf(target, c.id);
    BucketOfSelf(target, r[0].id);
    assert r[0] in r;
    if c in r {
      var k :| 0 <= k < |r| && r[k] == c;
      assert Distance(target, r[0].id) <= Distance(target, r[k].id);
    }
  }
}
