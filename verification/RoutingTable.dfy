/** The k-bucket routing table of pkg/dht/kademlia.go as a value: what one
    insert does to it, and what it holds after a whole history of inserts.
 */
module RoutingTable {
  import opened XorMetric

  const BUCKETS: nat := 160
  const BUCKET_SIZE: nat := 8

  datatype Contact = Contact(
    id: ID,
    publicKey: string,
    endpoint: string,
    publicEndpoint: string,
    controlEndpoint: string)

  type Buckets = t: seq<seq<Contact>> | |t| == BUCKETS witness seq(160, _ => [])

  // ------------------------------------------------------------ one insert

  /** The refresh of a contact that is already in its bucket. */
  function Refreshed(known: Contact, c: Contact): Contact {
    known.(endpoint := c.endpoint,
           publicEndpoint := if c.publicEndpoint != "" then c.publicEndpoint else known.publicEndpoint)
  }

  /** The first position holding `id`, or |b|. */
  function IndexOf(b: seq<Contact>, id: ID): (k: nat)
    ensures k <= |b|
    ensures k < |b| ==> b[k].id == id
    ensures forall j :: 0 <= j < k ==> b[j].id != id
  {
    if b == [] || b[0].id == id then 0 else 1 + IndexOf(b[1..], id)
  }

  function InsertBucket(b: seq<Contact>, c: Contact): seq<Contact> {
    var k := IndexOf(b, c.id);
    if k < |b| then b[k := Refreshed(b[k], c)]
    else if |b| < BUCKET_SIZE then b + [c]
    else b
  }

  function InsertTable(self: ID, t: Buckets, c: Contact): Buckets {
    var i := BucketIndex(self, c.id);
    if i >= BUCKETS then t else t[i := InsertBucket(t[i], c)]
  }

  function Empty(): Buckets {
    seq(BUCKETS, _ => [])
  }

  /** The inserts of `cs`, oldest first. */
  function InsertAll(self: ID, t: Buckets, cs: seq<Contact>): Buckets {
    if cs == [] then t
    else InsertTable(self, InsertAll(self, t, cs[..|cs| - 1]), cs[|cs| - 1])
  }

  /** The table of a node that has seen the inserts of `history`. */
  function Replay(self: ID, history: seq<Contact>): Buckets {
    InsertAll(self, Empty(), history)
  }

  lemma InsertAllSnoc(self: ID, t: Buckets, cs: seq<Contact>, c: Contact)
    ensures InsertAll(self, t, cs + [c]) == InsertTable(self, InsertAll(self, t, cs), c)
  {
    assert (cs + [c])[..|cs|] == cs;
  }

  lemma {:induction false} InsertAllAppend(self: ID, t: Buckets, a: seq<Contact>, b: seq<Contact>)
    ensures InsertAll(self, t, a + b) == InsertAll(self, InsertAll(self, t, a), b)
    decreases |b|
  {
    if b == [] {
      assert a + b == a;
    } else {
      var front, c := b[..|b| - 1], b[|b| - 1];
      assert b == front + [c];
      assert a + b == (a + front) + [c];
      InsertAllAppend(self, t, a, front);
      InsertAllSnoc(self, t, a + front, c);
    }
  }

  // ----------------------------------------------------- table invariant

  ghost predicate DistinctIds(s: seq<Contact>) {
    forall i, j :: 0 <= i < j < |s| ==> s[i].id != s[j].id
  }

  ghost predicate WellFormed(self: ID, t: Buckets) {
    forall i :: 0 <= i < BUCKETS ==> WellFormedBucket(self, i, t[i])
  }

  ghost predicate WellFormedBucket(self: ID, i: nat, b: seq<Contact>) {
    && |b| <= BUCKET_SIZE
    && DistinctIds(b)
    && forall k :: 0 <= k < |b| ==> BucketIndex(self, b[k].id) == i
  }

  ghost predicate Holds(t: Buckets, id: ID) {
    exists i, k :: 0 <= i < BUCKETS && 0 <= k < |t[i]| && t[i][k].id == id
  }

  ghost predicate HasId(s: seq<Contact>, id: ID) {
    exists k :: 0 <= k < |s| && s[k].id == id
  }

  lemma InsertKeepsWellFormed(self: ID, t: Buckets, c: Contact)
    requires WellFormed(self, t)
    ensures WellFormed(self, InsertTable(self, t, c))
  {
    var i := BucketIndex(self, c.id);
    if i < BUCKETS {
      assert WellFormedBucket(self, i, t[i]);
      assert WellFormedBucket(self, i, InsertBucket(t[i], c));
    }
  }

  lemma {:induction false} ReplayWellFormed(self: ID, history: seq<Contact>)
    ensures WellFormed(self, Replay(self, history))
  {
    if history != [] {
      ReplayWellFormed(self, history[..|history| - 1]);
      InsertKeepsWellFormed(self, Replay(self, history[..|history| - 1]), history[|history| - 1]);
    }
  }

  /** In a well-formed table an ID sits in its own bucket or nowhere. */
  lemma HoldsInOwnBucket(self: ID, t: Buckets, id: ID)
    requires WellFormed(self, t)
    ensures Holds(t, id) <==> BucketIndex(self, id) < BUCKETS && HasId(t[BucketIndex(self, id)], id)
  {
    if Holds(t, id) {
      var i, k :| 0 <= i < BUCKETS && 0 <= k < |t[i]| && t[i][k].id == id;
      assert WellFormedBucket(self, i, t[i]);
    }
    if BucketIndex(self, id) < BUCKETS && HasId(t[BucketIndex(self, id)], id) {
      var k :| 0 <= k < |t[BucketIndex(self, id)]| && t[BucketIndex(self, id)][k].id == id;
    }
  }

  lemma NeverHoldsSelf(self: ID, t: Buckets)
    requires WellFormed(self, t)
    ensures !Holds(t, self)
  {
    BucketOfSelf(self, self);
    HoldsInOwnBucket(self, t, self);
  }

  // ---------------------------------- reference: a function of the history

  /** The IDs of `history` that share exactly i leading bits with `self`, in
      order of first appearance. */
  function DistinctIn(self: ID, history: seq<Contact>, i: nat): seq<ID> {
    if history == [] then []
    else
      var earlier := DistinctIn(self, history[..|history| - 1], i);
      var id := history[|history| - 1].id;
      if BucketIndex(self, id) == i && id !in earlier then earlier + [id] else earlier
  }

  function Admitted(self: ID, history: seq<Contact>, i: nat): seq<ID> {
    var all := DistinctIn(self, history, i);
    if |all| <= 8 then all else all[..8]
  }

  ghost predicate Mentions(history: seq<Contact>, id: ID) {
    exists j :: 0 <= j < |history| && history[j].id == id
  }

  function FirstOf(history: seq<Contact>, id: ID): Contact
    requires Mentions(history, id)
  {
    if history[0].id == id then history[0] else FirstOf(history[1..], id)
  }

  function LastEndpoint(history: seq<Contact>, id: ID): string
    requires Mentions(history, id)
  {
    var last := history[|history| - 1];
    if last.id == id then last.endpoint else LastEndpoint(history[..|history| - 1], id)
  }

  /** The last non-empty PublicEndpoint announced for `id`, or "". */
  function LastPublicEndpoint(history: seq<Contact>, id: ID): string {
    if history == [] then ""
    else
      var last := history[|history| - 1];
      if last.id == id && last.publicEndpoint != "" then last.publicEndpoint
      else LastPublicEndpoint(history[..|history| - 1], id)
  }

  function Remembered(history: seq<Contact>, id: ID): Contact
    requires Mentions(history, id)
  {
    Contact(id, FirstOf(history, id).publicKey, LastEndpoint(history, id),
            LastPublicEndpoint(history, id), FirstOf(history, id).controlEndpoint)
  }

  lemma {:induction false} DistinctInFacts(self: ID, history: seq<Contact>, i: nat)
    ensures forall id :: id in DistinctIn(self, history, i) <==> Mentions(history, id) && BucketIndex(self, id) == i
  {
    if history != [] {
      var front, c := history[..|history| - 1], history[|history| - 1];
      DistinctInFacts(self, front, i);
      forall id ensures Mentions(history, id) <==> Mentions(front, id) || c.id == id {
        MentionsSnoc(front, c, id);
        assert history == front + [c];
      }
    }
  }

  lemma MentionsSnoc(front: seq<Contact>, c: Contact, id: ID)
    ensures Mentions(front + [c], id) <==> Mentions(front, id) || c.id == id
  {
    if Mentions(front, id) {
      var j :| 0 <= j < |front| && front[j].id == id;
      assert (front + [c])[j].id == id;
    } else if c.id == id {
      assert (front + [c])[|front|].id == id;
    }
  }

  lemma {:induction false} FirstOfSnoc(front: seq<Contact>, c: Contact, id: ID)
    requires Mentions(front, id) || c.id == id
    ensures Mentions(front + [c], id)
    ensures FirstOf(front + [c], id) == if Mentions(front, id) then FirstOf(front, id) else c
  {
    MentionsSnoc(front, c, id);
    if front != [] && front[0].id != id {
      assert (front + [c])[1..] == front[1..] + [c];
      MentionsTail(front, id);
      FirstOfSnoc(front[1..], c, id);
    }
  }

  lemma MentionsTail(history: seq<Contact>, id: ID)
    requires history != []
    ensures Mentions(history, id) <==> history[0].id == id || Mentions(history[1..], id)
  {
    if Mentions(history[1..], id) {
      var j :| 0 <= j < |history[1..]| && history[1..][j].id == id;
      assert history[j + 1].id == id;
    }
  }

  lemma RememberedSnoc(front: seq<Contact>, c: Contact, id: ID)
    requires Mentions(front, id) || c.id == id
    ensures Mentions(front + [c], id)
    ensures Remembered(front + [c], id) ==
            if c.id != id then Remembered(front, id)
            else if Mentions(front, id) then Refreshed(Remembered(front, id), c)
            else Contact(id, c.publicKey, c.endpoint, c.publicEndpoint, c.controlEndpoint)
  {
    FirstOfSnoc(front, c, id);
    assert (front + [c])[..|front|] == front;
    if !Mentions(front, id) {
      NoPublicEndpoint(front, id);
    }
  }

  lemma {:induction false} NoPublicEndpoint(history: seq<Contact>, id: ID)
    requires !Mentions(history, id)
    ensures LastPublicEndpoint(history, id) == ""
  {
    if history != [] {
      var front, c := history[..|history| - 1], history[|history| - 1];
      assert history == front + [c];
      MentionsSnoc(front, c, id);
      NoPublicEndpoint(front, id);
    }
  }

  ghost predicate BucketIsHistory(self: ID, history: seq<Contact>, i: nat, b: seq<Contact>) {
    var ids := Admitted(self, history, i);
    && |b| == |ids|
    && forall k :: 0 <= k < |b| ==>
          b[k].id == ids[k] && Mentions(history, ids[k]) && b[k] == Remembered(history, ids[k])
  }

  /** The table is a function of its whole insert history: bucket i holds, in
      order, the first 8 distinct IDs that share exactly i leading bits with
      `self`; each contact has its first public key and control endpoint, its
      last endpoint and its last non-empty public endpoint. */
  lemma {:induction false} TableIsHistory(self: ID, history: seq<Contact>, i: nat)
    requires i < BUCKETS
    ensures BucketIsHistory(self, history, i, Replay(self, history)[i])
  {
    if history != [] {
      var front, c := history[..|history| - 1], history[|history| - 1];
      assert history == front + [c];
      TableIsHistory(self, front, i);
      BucketStep(self, front, c, i, Replay(self, front)[i]);
    }
  }

  ghost predicate Unique(ids: seq<ID>) {
    forall j, k :: 0 <= j < k < |ids| ==> ids[j] != ids[k]
  }

  lemma {:induction false} DistinctInUnique(self: ID, history: seq<Contact>, i: nat)
    ensures Unique(DistinctIn(self, history, i))
  {
    if history != [] {
      var earlier := DistinctIn(self, history[..|history| - 1], i);
      DistinctInUnique(self, history[..|history| - 1], i);
      assert forall j :: 0 <= j < |earlier| ==> earlier[j] in earlier;
    }
  }

  /** How one more insert changes the admitted IDs of a bucket. */
  lemma AdmittedSnoc(self: ID, front: seq<Contact>, c: Contact, i: nat)
    ensures var ids := Admitted(self, front, i);
            Admitted(self, front + [c], i) ==
            if BucketIndex(self, c.id) == i && c.id !in ids && |ids| < BUCKET_SIZE then ids + [c.id] else ids
  {
    assert (front + [c])[..|front|] == front;
  }

  /** What the inserted contact does to the contacts already admitted. */
  lemma RefreshStep(self: ID, front: seq<Contact>, c: Contact, i: nat, b: seq<Contact>, k: nat)
    requires BucketIsHistory(self, front, i, b) && k < |b|
    ensures Mentions(front + [c], b[k].id)
    ensures Remembered(front + [c], b[k].id) == if b[k].id == c.id then Refreshed(b[k], c) else b[k]
  {
    RememberedSnoc(front, c, b[k].id);
  }

  /** What InsertBucket does, position by position, to a bucket of distinct IDs. */
  lemma InsertBucketShape(b: seq<Contact>, c: Contact)
    requires DistinctIds(b)
    ensures var known := exists k :: 0 <= k < |b| && b[k].id == c.id;
            var b' := InsertBucket(b, c);
            && |b'| == (if !known && |b| < BUCKET_SIZE then |b| + 1 else |b|)
            && (forall k :: 0 <= k < |b| ==> b'[k] == if b[k].id == c.id then Refreshed(b[k], c) else b[k])
            && (|b'| > |b| ==> b'[|b|] == c)
  {
  }

  /** The old contacts of the bucket still match the history after one more insert. */
  lemma OldContactsStep(self: ID, front: seq<Contact>, c: Contact, i: nat, b: seq<Contact>, b': seq<Contact>)
    requires BucketIsHistory(self, front, i, b)
    requires |b| == |b'|
    requires forall k :: 0 <= k < |b| ==> b'[k] == if b[k].id == c.id then Refreshed(b[k], c) else b[k]
    requires Admitted(self, front + [c], i) == Admitted(self, front, i)
    ensures BucketIsHistory(self, front + [c], i, b')
  {
    forall k | 0 <= k < |b|
      ensures Mentions(front + [c], b[k].id) && b'[k] == Remembered(front + [c], b[k].id)
    {
      RefreshStep(self, front, c, i, b, k);
    }
  }

  lemma NewContactStep(self: ID, front: seq<Contact>, c: Contact, i: nat, b: seq<Contact>)
    requires BucketIsHistory(self, front, i, b)
    requires !Mentions(front, c.id)
    requires Admitted(self, front + [c], i) == Admitted(self, front, i) + [c.id]
    ensures BucketIsHistory(self, front + [c], i, b + [c])
  {
    RememberedSnoc(front, c, c.id);
    forall k | 0 <= k < |b|
      ensures Mentions(front + [c], b[k].id) && b[k] == Remembered(front + [c], b[k].id)
    {
      RefreshStep(self, front, c, i, b, k);
    }
  }

  lemma BucketStep(self: ID, front: seq<Contact>, c: Contact, i: nat, b: seq<Contact>)
    requires BucketIsHistory(self, front, i, b)
    ensures BucketIsHistory(self, front + [c], i, if BucketIndex(self, c.id) == i then InsertBucket(b, c) else b)
  {
    var ids := Admitted(self, front, i);
    AdmittedSnoc(self, front, c, i);
    AdmittedIn(self, front, i);
    if BucketIndex(self, c.id) != i {
      OldContactsStep(self, front, c, i, b, b);
    } else {
      InsertBucketShape(b, c);
      if c.id !in ids && |ids| < BUCKET_SIZE {
        NewContactStep(self, front, c, i, b);
      } else {
        OldContactsStep(self, front, c, i, b, InsertBucket(b, c));
      }
    }
  }

  lemma AdmittedIn(self: ID, history: seq<Contact>, i: nat)
    ensures var ids := Admitted(self, history, i);
            && Unique(ids)
            && (forall k :: 0 <= k < |ids| ==> BucketIndex(self, ids[k]) == i)
            && (|ids| < BUCKET_SIZE ==> forall id :: Mentions(history, id) && BucketIndex(self, id) == i ==> id in ids)
  {
    var ids := Admitted(self, history, i);
    DistinctInUnique(self, history, i);
    DistinctInFacts(self, history, i);
    assert forall k :: 0 <= k < |ids| ==> ids[k] in DistinctIn(self, history, i);
  }
}
