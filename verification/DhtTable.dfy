/** The `Table` object of pkg/dht/kademlia.go: `insert`, the gathering loop
    shared by `KnownPeers` and `closest`, and `closest` itself.

    `Table.mu` is only ever read-locked, so inserts may land between two bucket
    reads of the gathering loop; only each single bucket access is atomic.
 */
module DhtTable {
  import opened XorMetric
  import opened RoutingTable
  import opened Closest

  /** What the gathering loop reads when schedule[k] are the inserts that land
      just before bucket k is read: bucket k as it stands at that moment. */
  ghost function Pieces(self: ID, history: seq<Contact>, schedule: seq<seq<Contact>>): (p: seq<seq<Contact>>)
    requires |schedule| <= BUCKETS
    ensures |p| == |schedule|
  {
    seq(|schedule|, k requires 0 <= k < |schedule| => Replay(self, history + Flatten(schedule[..k + 1]))[k])
  }

  class Table {
    const selfID: ID
    const buckets: array<seq<Contact>>
    ghost var history: seq<Contact>

    /** The buckets are a function of every insert made so far. */
    ghost predicate Valid()
      reads this, buckets
    {
      buckets.Length == BUCKETS && buckets[..] == Replay(selfID, history)
    }

    constructor (selfID: ID)
      ensures Valid() && fresh(buckets)
      ensures this.selfID == selfID && history == []
    {
      this.selfID := selfID;
      this.buckets := new seq<Contact>[BUCKETS](_ => []);
      history := [];
    }

    method Insert(c: Contact)
      requires Valid()
      modifies this, buckets
      ensures Valid()
      ensures history == old(history) + [c]
    {
      ghost var before := buckets[..];
      var dist := XorDist(selfID, c.id);
      var bucketIdx := CountLeadingZeros(dist);
      assert buckets[..] == before;
      InsertAllSnoc(selfID, Empty(), history, c);
      history := history + [c];
      if bucketIdx >= BUCKETS {
        return;
      }
      var contacts := UpdateOrAppend(buckets[bucketIdx], c);
      buckets[bucketIdx] := contacts;
      assert buckets[..] == before[bucketIdx := contacts];
    }

    /** The locked part of `insert`: refresh a known contact in place, or append
        while there is room. */
    static method UpdateOrAppend(bucket: seq<Contact>, c: Contact) returns (contacts: seq<Contact>)
      ensures contacts == InsertBucket(bucket, c)
    {
      contacts := bucket;
      for i := 0 to |contacts|
        invariant contacts == bucket
        invariant forall j :: 0 <= j < i ==> contacts[j].id != c.id
      {
        if contacts[i].id == c.id {
          contacts := contacts[i := contacts[i].(endpoint := c.endpoint)];
          if c.publicEndpoint != "" {
            contacts := contacts[i := contacts[i].(publicEndpoint := c.publicEndpoint)];
          }
          assert contacts == bucket[i := Refreshed(bucket[i], c)];
          return;
        }
      }
      if |contacts| < BUCKET_SIZE {
        contacts := contacts + [c];
      }
    }

    method InsertEach(cs: seq<Contact>)
      requires Valid()
      modifies this, buckets
      ensures Valid()
      ensures history == old(history) + cs
    {
      for i := 0 to |cs|
        invariant Valid() && history == old(history) + cs[..i]
      {
        assert cs[..i + 1] == cs[..i] + [cs[i]];
        Insert(cs[i]);
      }
    }

    /** One turn of the gathering loop: the inserts of `cs` land, then bucket k is read. */
    method ReadAfter(cs: seq<Contact>, k: nat) returns (contacts: seq<Contact>)
      requires Valid() && k < BUCKETS
      modifies this, buckets
      ensures Valid()
      ensures history == old(history) + cs
      ensures contacts == Replay(selfID, history)[k]
    {
      InsertEach(cs);
      contacts := buckets[k];
    }

    /** The loop of `KnownPeers` and `closest`: bucket after bucket, with the
        inserts of schedule[k] landing before bucket k is read. */
    method Gather(schedule: seq<seq<Contact>>) returns (all: seq<Contact>)
      requires Valid() && |schedule| == BUCKETS
      modifies this, buckets
      ensures Valid()
      ensures history == old(history) + Flatten(schedule)
      ensures all == Flatten(Pieces(selfID, old(history), schedule))
    {
      all := [];
      ghost var pieces := Pieces(selfID, history, schedule);
      assert schedule[..BUCKETS] == schedule && pieces[..BUCKETS] == pieces;
      for k := 0 to BUCKETS
        invariant Valid()
        invariant history == old(history) + Flatten(schedule[..k])
        invariant all == Flatten(pieces[..k])
      {
        GatherStep(selfID, old(history), schedule, k);
        var contacts := ReadAfter(schedule[k], k);
        all := all + contacts;
      }
    }

    method ClosestContacts(target: ID, n: nat, schedule: seq<seq<Contact>>) returns (r: seq<Contact>)
      requires Valid() && |schedule| == BUCKETS
      modifies this, buckets
      ensures Valid()
      ensures history == old(history) + Flatten(schedule)
      ensures IsClosest(target, Flatten(Pieces(selfID, old(history), schedule)), n, r)
    {
      ghost var pieces := Pieces(selfID, history, schedule);
      var candidates := Gather(schedule);
      PiecesWellFormed(selfID, old(history), schedule);
      FlattenDistinct(selfID, pieces, 0);
      var sorted := SortSlice(target, candidates);
      SortIsAscending(target, candidates, sorted);
      CutIsClosest(target, candidates, sorted, n);
      if |sorted| > n {
        sorted := sorted[..n];
      }
      r := sorted;
    }
  }

  // --------------------------------------------- what a snapshot guarantees

  lemma GatherStep(self: ID, history: seq<Contact>, schedule: seq<seq<Contact>>, k: nat)
    requires |schedule| == BUCKETS && k < BUCKETS
    ensures var after := (history + Flatten(schedule[..k])) + schedule[k];
            && after == history + Flatten(schedule[..k + 1])
            && Flatten(Pieces(self, history, schedule)[..k + 1]) ==
               Flatten(Pieces(self, history, schedule)[..k]) + Replay(self, after)[k]
  {
    FlattenTake(schedule, k);
    FlattenTake(Pieces(self, history, schedule), k);
    assert (history + Flatten(schedule[..k])) + schedule[k] == history + Flatten(schedule[..k + 1]);
  }

  lemma PiecesWellFormed(self: ID, history: seq<Contact>, schedule: seq<seq<Contact>>)
    requires |schedule| == BUCKETS
    ensures WellFormed(self, Pieces(self, history, schedule))
  {
    forall k | 0 <= k < BUCKETS ensures WellFormedBucket(self, k, Pieces(self, history, schedule)[k]) {
      ReplayWellFormed(self, history + Flatten(schedule[..k + 1]));
    }
  }

  /** b' still has every contact of b, at its place, possibly refreshed. */
  ghost predicate Grows(b: seq<Contact>, b': seq<Contact>) {
    |b| <= |b'| && forall k :: 0 <= k < |b| ==> b[k].id == b'[k].id
  }

  lemma {:induction false} BucketsGrow(self: ID, t: Buckets, cs: seq<Contact>, i: nat)
    requires i < BUCKETS
    ensures Grows(t[i], InsertAll(self, t, cs)[i])
  {
    if cs != [] {
      BucketsGrow(self, t, cs[..|cs| - 1], i);
      InsertGrows(self, InsertAll(self, t, cs[..|cs| - 1]), cs[|cs| - 1], i);
    }
  }

  lemma InsertGrows(self: ID, t: Buckets, c: Contact, i: nat)
    requires i < BUCKETS
    ensures Grows(t[i], InsertTable(self, t, c)[i])
  {
  }

  lemma ReplayGrows(self: ID, history: seq<Contact>, more: seq<Contact>, i: nat)
    requires i < BUCKETS
    ensures Grows(Replay(self, history)[i], Replay(self, history + more)[i])
  {
    InsertAllAppend(self, Empty(), history, more);
    BucketsGrow(self, Replay(self, history), more, i);
  }

  ghost predicate TableGrows(t: Buckets, t': Buckets) {
    forall i :: 0 <= i < BUCKETS ==> Grows(t[i], t'[i])
  }

  /** Every bucket that was read lies between the bucket at the start and the
      bucket at the end. */
  lemma PiecesBetween(self: ID, history: seq<Contact>, schedule: seq<seq<Contact>>)
    requires |schedule| == BUCKETS
    ensures TableGrows(Replay(self, history), Pieces(self, history, schedule))
    ensures TableGrows(Pieces(self, history, schedule), Replay(self, history + Flatten(schedule)))
  {
    forall k | 0 <= k < BUCKETS
      ensures Grows(Replay(self, history)[k], Pieces(self, history, schedule)[k])
      ensures Grows(Pieces(self, history, schedule)[k], Replay(self, history + Flatten(schedule))[k])
    {
      var sofar, later := Flatten(schedule[..k + 1]), Flatten(schedule[k + 1..]);
      FlattenSplit(schedule, k + 1);
      assert history + (sofar + later) == (history + sofar) + later;
      ReplayGrows(self, history, sofar, k);
      ReplayGrows(self, history + sofar, later, k);
    }
  }

  lemma FlattenSplit(s: seq<seq<Contact>>, k: nat)
    requires k <= |s|
    ensures Flatten(s) == Flatten(s[..k]) + Flatten(s[k..])
  {
    assert s == s[..k] + s[k..];
    FlattenAppend(s[..k], s[k..]);
  }

  lemma HoldsHasId(t: Buckets, id: ID)
    ensures Holds(t, id) <==> HasId(Flatten(t), id)
  {
    if Holds(t, id) {
      var i, k :| 0 <= i < BUCKETS && 0 <= k < |t[i]| && t[i][k].id == id;
      FlattenMember(t, t[i][k]);
    }
    if HasId(Flatten(t), id) {
      var j :| 0 <= j < |Flatten(t)| && Flatten(t)[j].id == id;
      FlattenMember(t, Flatten(t)[j]);
      var i :| 0 <= i < BUCKETS && Flatten(t)[j] in t[i];
      var k :| 0 <= k < |t[i]| && t[i][k] == Flatten(t)[j];
      assert t[i][k].id == id;
    }
  }

  lemma GrowsHolds(t: Buckets, t': Buckets, id: ID)
    requires TableGrows(t, t') && Holds(t, id)
    ensures Holds(t', id)
  {
    var i, k :| 0 <= i < BUCKETS && 0 <= k < |t[i]| && t[i][k].id == id;
    assert Grows(t[i], t'[i]);
    assert t'[i][k].id == id;
  }

  ghost predicate SnapshotOf(before: Buckets, all: seq<Contact>, after: Buckets) {
    && DistinctIds(all)
    && (forall id :: Holds(before, id) ==> HasId(all, id))
    && (forall id :: HasId(all, id) ==> Holds(after, id))
  }

  lemma BetweenIsSnapshot(self: ID, before: Buckets, pieces: Buckets, after: Buckets)
    requires WellFormed(self, pieces) && TableGrows(before, pieces) && TableGrows(pieces, after)
    ensures SnapshotOf(before, Flatten(pieces), after)
  {
    FlattenDistinct(self, pieces, 0);
    forall id ensures Holds(before, id) ==> HasId(Flatten(pieces), id) {
      HoldsHasId(pieces, id);
      if Holds(before, id) { GrowsHolds(before, pieces, id); }
    }
    forall id ensures HasId(Flatten(pieces), id) ==> Holds(after, id) {
      HoldsHasId(pieces, id);
      if Holds(pieces, id) { GrowsHolds(pieces, after, id); }
    }
  }

  /** Whatever inserts interleave with the bucket reads, the gathered list
      repeats no ID, has every ID held at the start, and only IDs held at the end. */
  lemma SnapshotBounds(self: ID, history: seq<Contact>, schedule: seq<seq<Contact>>)
    requires |schedule| == BUCKETS
    ensures SnapshotOf(Replay(self, history), Flatten(Pieces(self, history, schedule)),
                       Replay(self, history + Flatten(schedule)))
  {
    PiecesWellFormed(self, history, schedule);
    PiecesBetween(self, history, schedule);
    BetweenIsSnapshot(self, Replay(self, history), Pieces(self, history, schedule),
                      Replay(self, history + Flatten(schedule)));
  }

  /** With no insert during the reads the list is the table itself. */
  lemma QuietSnapshot(self: ID, history: seq<Contact>, schedule: seq<seq<Contact>>)
    requires |schedule| == BUCKETS && forall k :: 0 <= k < BUCKETS ==> schedule[k] == []
    ensures Pieces(self, history, schedule) == Replay(self, history)
    ensures Flatten(schedule) == []
  {
    forall k | 0 <= k <= BUCKETS ensures Flatten(schedule[..k]) == [] {
      FlattenNothing(schedule[..k]);
    }
    assert schedule[..BUCKETS] == schedule;
    assert history + [] == history;
  }

  lemma {:induction false} FlattenNothing(s: seq<seq<Contact>>)
    requires forall k :: 0 <= k < |s| ==> s[k] == []
    ensures Flatten(s) == []
  {
    if s != [] { FlattenNothing(s[..|s| - 1]); }
  }

  lemma FlattenTake(s: seq<seq<Contact>>, k: nat)
    requires k < |s|
    ensures Flatten(s[..k + 1]) == Flatten(s[..k]) + s[k]
  {
    assert s[..k + 1][..k] == s[..k];
  }

  // ---------------------------------------------- when a snapshot is atomic

  /** The table after the first m of the inserts `landed` during the reads. */
  ghost function TableAt(self: ID, history: seq<Contact>, landed: seq<Contact>, m: int): Buckets
    requires 0 <= m <= |landed|
  {
    Replay(self, history + landed[..m])
  }

  /** Insert n adds an ID to the table: its bucket has room and not that ID. */
  ghost predicate Admits(self: ID, history: seq<Contact>, landed: seq<Contact>, n: int)
    requires 0 <= n < |landed|
  {
    var t, id := TableAt(self, history, landed, n), landed[n].id;
    BucketIndex(self, id) < BUCKETS && !Holds(t, id) && |t[BucketIndex(self, id)]| < BUCKET_SIZE
  }

  /** How many inserts had landed when bucket b was read. */
  ghost function ReadAt(schedule: seq<seq<Contact>>, b: nat): nat
    requires b < |schedule|
  {
    |Flatten(schedule[..b + 1])|
  }

  /** Insert n admits an ID to a bucket that had been read already. */
  ghost predicate Missed(self: ID, history: seq<Contact>, schedule: seq<seq<Contact>>, n: int)
    requires |schedule| == BUCKETS && 0 <= n < |Flatten(schedule)|
  {
    Admits(self, history, Flatten(schedule), n) && n >= ReadAt(schedule, BucketIndex(self, Flatten(schedule)[n].id))
  }

  /** Insert n admits an ID to a bucket that was still to be read. */
  ghost predicate Seen(self: ID, history: seq<Contact>, schedule: seq<seq<Contact>>, n: int)
    requires |schedule| == BUCKETS && 0 <= n < |Flatten(schedule)|
  {
    Admits(self, history, Flatten(schedule), n) && n < ReadAt(schedule, BucketIndex(self, Flatten(schedule)[n].id))
  }

  /** The list has exactly the IDs of this table. */
  ghost predicate SameIds(all: seq<Contact>, t: Buckets) {
    forall id :: HasId(all, id) <==> Holds(t, id)
  }

  /** The gathered IDs are those of the table at one moment of the reads. */
  ghost predicate Atomic(self: ID, history: seq<Contact>, schedule: seq<seq<Contact>>)
    requires |schedule| == BUCKETS
  {
    exists m :: 0 <= m <= |Flatten(schedule)|
                && SameIds(Flatten(Pieces(self, history, schedule)), TableAt(self, history, Flatten(schedule), m))
  }

  /** No missed admission comes before a seen one. */
  ghost predicate SeenFirst(self: ID, history: seq<Contact>, schedule: seq<seq<Contact>>)
    requires |schedule| == BUCKETS
  {
    forall n, n' :: 0 <= n < n' < |Flatten(schedule)| ==>
      !(Missed(self, history, schedule, n) && Seen(self, history, schedule, n'))
  }

  /** One insert changes the held IDs exactly when it admits. */
  lemma HoldsStep(self: ID, history: seq<Contact>, landed: seq<Contact>, n: nat, id: ID)
    requires n < |landed|
    ensures Holds(TableAt(self, history, landed, n + 1), id) <==>
              Holds(TableAt(self, history, landed, n), id) || (Admits(self, history, landed, n) && landed[n].id == id)
  {
    TableNext(self, history, landed, n);
    ReplayWellFormed(self, history + landed[..n]);
    HoldsAfterInsert(self, TableAt(self, history, landed, n), landed[n], id);
  }

  lemma TableNext(self: ID, history: seq<Contact>, landed: seq<Contact>, n: nat)
    requires n < |landed|
    ensures TableAt(self, history, landed, n + 1) == InsertTable(self, TableAt(self, history, landed, n), landed[n])
  {
    assert history + landed[..n + 1] == (history + landed[..n]) + [landed[n]];
    InsertAllSnoc(self, Empty(), history + landed[..n], landed[n]);
  }

  lemma HoldsAfterInsert(self: ID, t: Buckets, c: Contact, id: ID)
    requires WellFormed(self, t)
    ensures Holds(InsertTable(self, t, c), id) <==>
              Holds(t, id) ||
              (id == c.id && BucketIndex(self, id) < BUCKETS && |t[BucketIndex(self, id)]| < BUCKET_SIZE)
  {
    InsertKeepsWellFormed(self, t, c);
    HoldsInOwnBucket(self, t, id);
    HoldsInOwnBucket(self, InsertTable(self, t, c), id);
    var i := BucketIndex(self, id);
    if i < BUCKETS {
      assert WellFormedBucket(self, i, t[i]);
      InsertBucketIds(t[i], c, id);
      assert InsertTable(self, t, c)[i] == if BucketIndex(self, c.id) == i then InsertBucket(t[i], c) else t[i];
    }
  }

  /** How the table holds a contact right after its insert: as it came if it is
      new, and else with its endpoint and its public endpoint, if any, renewed. */
  lemma HeldAfterInsert(self: ID, t: Buckets, c: Contact, i: nat, k: nat)
    requires WellFormed(self, t) && i < BUCKETS
    requires k < |InsertTable(self, t, c)[i]| && InsertTable(self, t, c)[i][k].id == c.id
    ensures var held := InsertTable(self, t, c)[i][k];
            && held.endpoint == c.endpoint && (c.publicEndpoint != "" ==> held.publicEndpoint == c.publicEndpoint)
            && (!Holds(t, c.id) ==> held == c)
  {
    InsertKeepsWellFormed(self, t, c);
    assert WellFormedBucket(self, i, t[i]) && WellFormedBucket(self, i, InsertTable(self, t, c)[i]);
    InsertBucketShape(t[i], c);
    assert k < |t[i]| && t[i][k].id == c.id ==> Holds(t, c.id);
  }

  lemma InsertBucketIds(b: seq<Contact>, c: Contact, id: ID)
    requires DistinctIds(b)
    ensures HasId(InsertBucket(b, c), id) <==> HasId(b, id) || (id == c.id && |b| < BUCKET_SIZE)
  {
    var b' := InsertBucket(b, c);
    InsertBucketShape(b, c);
    if k :| 0 <= k < |b| && b[k].id == id {
      assert b'[k].id == id;
    } else if id == c.id && |b| < BUCKET_SIZE {
      assert b'[|b|].id == id;
    }
    if k :| 0 <= k < |b'| && b'[k].id == id {
      assert k < |b| ==> b[k].id == id;
    }
  }

  /** IDs are only ever added. */
  lemma HoldsLater(self: ID, history: seq<Contact>, landed: seq<Contact>, p: nat, q: nat, id: ID)
    requires p <= q <= |landed| && Holds(TableAt(self, history, landed, p), id)
    ensures Holds(TableAt(self, history, landed, q), id)
  {
    assert history + landed[..q] == (history + landed[..p]) + landed[p..q];
    ReplayKeepsIds(self, history + landed[..p], landed[p..q], id);
  }

  lemma ReplayKeepsIds(self: ID, history: seq<Contact>, more: seq<Contact>, id: ID)
    requires Holds(Replay(self, history), id)
    ensures Holds(Replay(self, history + more), id)
  {
    forall i | 0 <= i < BUCKETS ensures Grows(Replay(self, history)[i], Replay(self, history + more)[i]) {
      ReplayGrows(self, history, more, i);
    }
    GrowsHolds(Replay(self, history), Replay(self, history + more), id);
  }

  /** Where a property that did not hold first holds. */
  lemma {:induction false} FirstFlip(held: int -> bool, p: nat, q: nat) returns (n: nat)
    requires p <= q && !held(p) && held(q)
    ensures p <= n < q && !held(n) && held(n + 1)
    decreases q
  {
    if held(q - 1) {
      n := FirstFlip(held, p, q - 1);
    } else {
      n := q - 1;
    }
  }

  ghost function HeldAt(self: ID, history: seq<Contact>, landed: seq<Contact>, id: ID): int -> bool {
    m => 0 <= m <= |landed| && Holds(TableAt(self, history, landed, m), id)
  }

  /** An ID that is new between two moments was admitted in between. */
  lemma AdmittedBetween(self: ID, history: seq<Contact>, landed: seq<Contact>, p: nat, q: nat, id: ID) returns (n: nat)
    requires p <= q <= |landed|
    requires !Holds(TableAt(self, history, landed, p), id) && Holds(TableAt(self, history, landed, q), id)
    ensures p <= n < q && Admits(self, history, landed, n) && landed[n].id == id
  {
    n := FirstFlip(HeldAt(self, history, landed, id), p, q);
    HoldsStep(self, history, landed, n, id);
  }

  /** The table has an admitted ID exactly from its admission on. */
  lemma HeldSince(self: ID, history: seq<Contact>, landed: seq<Contact>, n: nat, m: nat)
    requires n < |landed| && m <= |landed| && Admits(self, history, landed, n)
    ensures Holds(TableAt(self, history, landed, m), landed[n].id) <==> n < m
  {
    var id := landed[n].id;
    HoldsStep(self, history, landed, n, id);
    if n < m {
      HoldsLater(self, history, landed, n + 1, m, id);
    } else if Holds(TableAt(self, history, landed, m), id) {
      HoldsLater(self, history, landed, m, n, id);
    }
  }

  /** The gathered list has an ID exactly when its bucket had it when read. */
  lemma GatheredIff(self: ID, history: seq<Contact>, schedule: seq<seq<Contact>>, id: ID)
    requires |schedule| == BUCKETS
    ensures var b := BucketIndex(self, id);
            HasId(Flatten(Pieces(self, history, schedule)), id) <==>
            b < BUCKETS && ReadAt(schedule, b) <= |Flatten(schedule)|
            && Holds(TableAt(self, history, Flatten(schedule), ReadAt(schedule, b)), id)
  {
    var b, pieces := BucketIndex(self, id), Pieces(self, history, schedule);
    PiecesWellFormed(self, history, schedule);
    HoldsHasId(pieces, id);
    HoldsInOwnBucket(self, pieces, id);
    if b < BUCKETS {
      ReadAtMoment(schedule, b);
      var t := Replay(self, history + Flatten(schedule[..b + 1]));
      ReplayWellFormed(self, history + Flatten(schedule[..b + 1]));
      HoldsInOwnBucket(self, t, id);
      assert pieces[b] == t[b];
    }
  }

  lemma ReadAtMoment(schedule: seq<seq<Contact>>, b: nat)
    requires b < |schedule|
    ensures ReadAt(schedule, b) <= |Flatten(schedule)|
    ensures Flatten(schedule)[..ReadAt(schedule, b)] == Flatten(schedule[..b + 1])
  {
    FlattenSplit(schedule, b + 1);
  }

  /** A seen ID is gathered and a missed one is not. */
  lemma SeenAndMissed(self: ID, history: seq<Contact>, schedule: seq<seq<Contact>>, n: nat)
    requires |schedule| == BUCKETS && n < |Flatten(schedule)|
    ensures var all := Flatten(Pieces(self, history, schedule));
            && (Seen(self, history, schedule, n) ==> HasId(all, Flatten(schedule)[n].id))
            && (Missed(self, history, schedule, n) ==> !HasId(all, Flatten(schedule)[n].id))
  {
    var id := Flatten(schedule)[n].id;
    GatheredIff(self, history, schedule, id);
    if Admits(self, history, Flatten(schedule), n) {
      ReadAtMoment(schedule, BucketIndex(self, id));
      HeldSince(self, history, Flatten(schedule), n, ReadAt(schedule, BucketIndex(self, id)));
    }
  }

  /** A moment before which nothing was missed and from which on nothing is seen. */
  ghost predicate Cut(self: ID, history: seq<Contact>, schedule: seq<seq<Contact>>, m: nat)
    requires |schedule| == BUCKETS && m <= |Flatten(schedule)|
  {
    && (forall n :: 0 <= n < m ==> !Missed(self, history, schedule, n))
    && (forall n :: m <= n < |Flatten(schedule)| ==> !Seen(self, history, schedule, n))
  }

  lemma CutIsAtomic(self: ID, history: seq<Contact>, schedule: seq<seq<Contact>>, m: nat)
    requires |schedule| == BUCKETS && m <= |Flatten(schedule)| && Cut(self, history, schedule, m)
    ensures SameIds(Flatten(Pieces(self, history, schedule)), TableAt(self, history, Flatten(schedule), m))
  {
    forall id
      ensures HasId(Flatten(Pieces(self, history, schedule)), id) <==>
              Holds(TableAt(self, history, Flatten(schedule), m), id)
    {
      CutHasId(self, history, schedule, m, id);
    }
  }

  lemma CutHasId(self: ID, history: seq<Contact>, schedule: seq<seq<Contact>>, m: nat, id: ID)
    requires |schedule| == BUCKETS && m <= |Flatten(schedule)| && Cut(self, history, schedule, m)
    ensures HasId(Flatten(Pieces(self, history, schedule)), id) <==>
            Holds(TableAt(self, history, Flatten(schedule), m), id)
  {
    GatheredIff(self, history, schedule, id);
    if BucketIndex(self, id) < BUCKETS {
      ReadAtMoment(schedule, BucketIndex(self, id));
      CutIsReading(self, history, schedule, m, id);
    } else {
      ReplayWellFormed(self, history + Flatten(schedule)[..m]);
      HoldsInOwnBucket(self, TableAt(self, history, Flatten(schedule), m), id);
    }
  }

  /** Between the cut and the reading of its bucket an ID is neither added nor lost. */
  lemma CutIsReading(self: ID, history: seq<Contact>, schedule: seq<seq<Contact>>, m: nat, id: ID)
    requires |schedule| == BUCKETS && m <= |Flatten(schedule)| && Cut(self, history, schedule, m)
    requires BucketIndex(self, id) < BUCKETS && ReadAt(schedule, BucketIndex(self, id)) <= |Flatten(schedule)|
    ensures Holds(TableAt(self, history, Flatten(schedule), ReadAt(schedule, BucketIndex(self, id))), id) <==>
              Holds(TableAt(self, history, Flatten(schedule), m), id)
  {
    var r, ev := ReadAt(schedule, BucketIndex(self, id)), Flatten(schedule);
    var atRead, atCut := Holds(TableAt(self, history, ev, r), id), Holds(TableAt(self, history, ev, m), id);
    if r <= m {
      if atRead {
        HoldsLater(self, history, ev, r, m, id);
      } else if atCut {
        var n := AdmittedBetween(self, history, ev, r, m, id);
        assert Missed(self, history, schedule, n);
      }
    } else {
      if atCut {
        HoldsLater(self, history, ev, m, r, id);
      } else if atRead {
        var n := AdmittedBetween(self, history, ev, m, r, id);
        assert Seen(self, history, schedule, n);
      }
    }
  }

  /** The first missed admission, if any, is such a moment. */
  lemma FirstMissed(self: ID, history: seq<Contact>, schedule: seq<seq<Contact>>) returns (cut: nat)
    requires |schedule| == BUCKETS && SeenFirst(self, history, schedule)
    ensures cut <= |Flatten(schedule)| && Cut(self, history, schedule, cut)
  {
    var missed := MissedAt(self, history, schedule);
    cut := Least(missed, 0, |Flatten(schedule)|);
    forall k | 0 <= k < cut ensures !Missed(self, history, schedule, k) {
      assert !missed(k);
    }
  }

  ghost function MissedAt(self: ID, history: seq<Contact>, schedule: seq<seq<Contact>>): int -> bool
    requires |schedule| == BUCKETS
  {
    k => 0 <= k < |Flatten(schedule)| && Missed(self, history, schedule, k)
  }

  /** The first k from which on p may hold, or the end. */
  lemma {:induction false} Least(p: int -> bool, from: nat, end: nat) returns (k: nat)
    requires from <= end && forall j :: 0 <= j < from ==> !p(j)
    ensures k <= end && (forall j :: 0 <= j < k ==> !p(j)) && (k == end || p(k))
    decreases end - from
  {
    if from == end || p(from) {
      k := from;
    } else {
      k := Least(p, from + 1, end);
    }
  }

  /** Exactly when a snapshot is atomic: the gathered IDs are those the table
      held at one moment of the reads if and only if no ID admitted to a bucket
      already read was followed by an ID admitted to a bucket still to be read. */
  lemma AtomicIff(self: ID, history: seq<Contact>, schedule: seq<seq<Contact>>)
    requires |schedule| == BUCKETS
    ensures Atomic(self, history, schedule) <==> SeenFirst(self, history, schedule)
  {
    if SeenFirst(self, history, schedule) {
      var m := FirstMissed(self, history, schedule);
      CutIsAtomic(self, history, schedule, m);
    } else {
      var n, n' :| 0 <= n < n' < |Flatten(schedule)|
                   && Missed(self, history, schedule, n) && Seen(self, history, schedule, n');
      NotAtomic(self, history, schedule, n, n');
    }
  }

  /** At no moment does the table hold a seen ID without the missed one before it. */
  lemma NotAtomic(self: ID, history: seq<Contact>, schedule: seq<seq<Contact>>, n: nat, n': nat)
    requires |schedule| == BUCKETS && n < n' < |Flatten(schedule)|
    requires Missed(self, history, schedule, n) && Seen(self, history, schedule, n')
    ensures !Atomic(self, history, schedule)
  {
    var ev, all := Flatten(schedule), Flatten(Pieces(self, history, schedule));
    SeenAndMissed(self, history, schedule, n);
    SeenAndMissed(self, history, schedule, n');
    forall m | 0 <= m <= |ev| ensures !SameIds(all, TableAt(self, history, ev, m)) {
      HeldSince(self, history, ev, n, m);
      HeldSince(self, history, ev, n', m);
    }
  }

  // ------------------------------------------ a snapshot need not be atomic

  /** The schedule that makes the inserts `cs` right after bucket i was read. */
  function Late(cs: seq<Contact>, i: nat): (s: seq<seq<Contact>>)
    requires i + 1 < BUCKETS
    ensures |s| == BUCKETS
  {
    seq(BUCKETS, k => if k == i + 1 then cs else [])
  }

  lemma {:induction false} LatePrefix(cs: seq<Contact>, i: nat, k: nat)
    requires i + 1 < BUCKETS && k <= BUCKETS
    ensures Flatten(Late(cs, i)[..k]) == if k <= i + 1 then [] else cs
  {
    if k > 0 {
      LatePrefix(cs, i, k - 1);
      FlattenTake(Late(cs, i), k - 1);
    }
  }

  /** All of them land, and the buckets up to i are read before. */
  lemma LateReads(cs: seq<Contact>, i: nat)
    requires i + 1 < BUCKETS
    ensures Flatten(Late(cs, i)) == cs
    ensures forall k :: 0 <= k < BUCKETS ==> ReadAt(Late(cs, i), k) == if k <= i then 0 else |cs|
  {
    assert Late(cs, i)[..BUCKETS] == Late(cs, i);
    LatePrefix(cs, i, BUCKETS);
    forall k | 0 <= k < BUCKETS ensures ReadAt(Late(cs, i), k) == if k <= i then 0 else |cs| {
      LatePrefix(cs, i, k + 1);
    }
  }

  lemma BothAdmitted(self: ID, x: Contact, y: Contact)
    requires BucketIndex(self, x.id) < BucketIndex(self, y.id) < BUCKETS
    ensures Admits(self, [], [x, y], 0) && Admits(self, [], [x, y], 1)
  {
    assert [] + [x, y][..0] == [] && [] + [x, y][..1] == [] + [x];
    InsertAllSnoc(self, Empty(), [], x);
    HoldsAfterInsert(self, Empty(), x, y.id);
  }

  /** Both contacts are admitted, the first one too late to be seen. */
  lemma LateAdmissions(self: ID, x: Contact, y: Contact)
    requires BucketIndex(self, x.id) < BucketIndex(self, y.id) < BUCKETS
    ensures var schedule := Late([x, y], BucketIndex(self, x.id));
            && Flatten(schedule) == [x, y]
            && Missed(self, [], schedule, 0) && Seen(self, [], schedule, 1)
  {
    LateReads([x, y], BucketIndex(self, x.id));
    BothAdmitted(self, x, y);
  }

  /** The read lock does not make the snapshot atomic: for any two contacts of
      different buckets there is a run, starting from the empty table, whose
      snapshot has the second without the first, although at no moment of the
      run does the table hold the second without the first. */
  lemma SnapshotNeedNotBeAtomic(self: ID, x: Contact, y: Contact)
    requires BucketIndex(self, x.id) < BucketIndex(self, y.id) < BUCKETS
    ensures var schedule := Late([x, y], BucketIndex(self, x.id));
            var all := Flatten(Pieces(self, [], schedule));
            && HasId(all, y.id) && !HasId(all, x.id)
            && Flatten(schedule) == [x, y]
            && !Atomic(self, [], schedule)
    ensures forall m :: 0 <= m <= 2 ==>
              (Holds(TableAt(self, [], [x, y], m), y.id) ==> Holds(TableAt(self, [], [x, y], m), x.id))
  {
    var schedule := Late([x, y], BucketIndex(self, x.id));
    LateAdmissions(self, x, y);
    SeenAndMissed(self, [], schedule, 0);
    SeenAndMissed(self, [], schedule, 1);
    AtomicIff(self, [], schedule);
    forall m | 0 <= m <= 2
      ensures Holds(TableAt(self, [], [x, y], m), y.id) ==> Holds(TableAt(self, [], [x, y], m), x.id)
    {
      HeldSince(self, [], [x, y], 0, m);
      HeldSince(self, [], [x, y], 1, m);
    }
  }
}
