/** `Table.closest` of pkg/dht/kademlia.go: gather everything, sort by XOR
    distance, cut to n.  The answer is characterised without reference to
    sorting, shown to be unique, and shown to be what a bucket walk finds.
 */
module Closest {
  import opened XorMetric
  import opened RoutingTable

  /** The `less` closure handed to `sort.Slice`: byte strings compared with Go's `<`. */
  predicate Less(target: ID, a: Contact, b: Contact) {
    LexLess(Xor(target, a.id), Xor(target, b.id))
  }

  ghost predicate Ascending(target: ID, s: seq<Contact>) {
    forall i, j :: 0 <= i < j < |s| ==> Distance(target, s[i].id) < Distance(target, s[j].id)
  }

  /** Every contact of `near` is strictly closer to the target than every contact of `far`. */
  ghost predicate AllCloser(target: ID, near: seq<Contact>, far: seq<Contact>) {
    forall i, j :: 0 <= i < |near| && 0 <= j < |far| ==> Distance(target, near[i].id) < Distance(target, far[j].id)
  }

  /** What `closest` promises about its answer r for the gathered contacts `all`. */
  ghost predicate IsClosest(target: ID, all: seq<Contact>, n: nat, r: seq<Contact>) {
    && |r| == (if n < |all| then n else |all|)
    && Ascending(target, r)
    && (forall c :: c in r ==> c in all)
    && (forall c, x :: c in all && c !in r && x in r ==> Distance(target, x.id) < Distance(target, c.id))
  }

  function Flatten(t: seq<seq<Contact>>): seq<Contact> {
    if t == [] then [] else Flatten(t[..|t| - 1]) + t[|t| - 1]
  }

  // ------------------------------------------------------------- sorting

  ghost predicate NoInversion(target: ID, s: seq<Contact>) {
    forall i, j :: 0 <= i < j < |s| ==> !Less(target, s[j], s[i])
  }

  function Place(target: ID, c: Contact, s: seq<Contact>): seq<Contact> {
    if s == [] || !Less(target, s[0], c) then [c] + s else [s[0]] + Place(target, c, s[1..])
  }

  function Sorted(target: ID, s: seq<Contact>): seq<Contact> {
    if s == [] then [] else Place(target, s[0], Sorted(target, s[1..]))
  }

  lemma {:induction false} PlaceContents(target: ID, c: Contact, s: seq<Contact>)
    ensures multiset(Place(target, c, s)) == multiset(s) + multiset{c}
  {
    if s == [] || !Less(target, s[0], c) {
    } else {
      PlaceContents(target, c, s[1..]);
      assert s == [s[0]] + s[1..];
    }
  }

  lemma {:induction false} SortedContents(target: ID, s: seq<Contact>)
    ensures multiset(Sorted(target, s)) == multiset(s)
  {
    if s != [] {
      assert s == [s[0]] + s[1..];
      SortedContents(target, s[1..]);
      PlaceContents(target, s[0], Sorted(target, s[1..]));
    }
  }

  lemma NotLess(target: ID, a: Contact, b: Contact)
    ensures Less(target, a, b) <==> Distance(target, a.id) < Distance(target, b.id)
  {
    DistanceInjective(target, a.id, b.id);
  }

  lemma {:induction false} PlaceOrdered(target: ID, c: Contact, s: seq<Contact>)
    requires NoInversion(target, s)
    ensures NoInversion(target, Place(target, c, s))
  {
    var r := Place(target, c, s);
    if s == [] {
    } else if !Less(target, s[0], c) {
      forall j | 1 <= j < |r| ensures !Less(target, r[j], c) {
        NotLess(target, r[j], c);
        NotLess(target, s[0], c);
        NotLess(target, s[j - 1], s[0]);
        if j > 1 { assert !Less(target, s[j - 1], s[0]); }
      }
    } else {
      PlaceOrdered(target, c, s[1..]);
      PlaceContents(target, c, s[1..]);
      forall j | 1 <= j < |r| ensures !Less(target, r[j], s[0]) {
        var rest := Place(target, c, s[1..]);
        assert r[j] == rest[j - 1] && rest[j - 1] in multiset(rest);
        NotLess(target, r[j], s[0]);
        NotLess(target, s[0], c);
        if r[j] != c {
          assert r[j] in multiset(s[1..]);
          var k :| 0 <= k < |s[1..]| && s[1..][k] == r[j];
          assert !Less(target, s[k + 1], s[0]);
        }
      }
    }
  }

  lemma {:induction false} SortedOrdered(target: ID, s: seq<Contact>)
    ensures NoInversion(target, Sorted(target, s))
  {
    if s != [] {
      SortedOrdered(target, s[1..]);
      PlaceOrdered(target, s[0], Sorted(target, s[1..]));
    }
  }

  /** `sort.Slice`: callers may rely on the contract only, an unstable
      permutation without inversions. */
  method SortSlice(target: ID, s: seq<Contact>) returns (r: seq<Contact>)
    ensures multiset(r) == multiset(s)
    ensures NoInversion(target, r)
  {
    SortedContents(target, s);
    SortedOrdered(target, s);
    r := Sorted(target, s);
  }

  /** A permutation of contacts with distinct IDs, without inversions, is
      strictly ascending and has the same elements. */
  lemma SortIsAscending(target: ID, s: seq<Contact>, r: seq<Contact>)
    requires DistinctIds(s)
    requires multiset(r) == multiset(s)
    requires NoInversion(target, r)
    ensures Ascending(target, r) && |r| == |s|
    ensures forall c :: c in r <==> c in s
  {
    assert forall c :: c in r <==> c in multiset(r);
    assert forall c :: c in s <==> c in multiset(s);
    assert |r| == |multiset(r)| == |multiset(s)| == |s|;
    DistinctOnPermutation(s, r);
    forall i, j | 0 <= i < j < |r| ensures Distance(target, r[i].id) < Distance(target, r[j].id) {
      NotLess(target, r[j], r[i]);
      assert !Less(target, r[j], r[i]);
      DistanceInjective(target, r[i].id, r[j].id);
    }
  }

  lemma DistinctOnPermutation(s: seq<Contact>, r: seq<Contact>)
    requires DistinctIds(s)
    requires multiset(r) == multiset(s)
    ensures DistinctIds(r)
  {
    forall i, j | 0 <= i < j < |r| ensures r[i].id != r[j].id {
      if r[i].id == r[j].id {
        assert r[i] in multiset(r) && r[j] in multiset(r);
        var k :| 0 <= k < |s| && s[k] == r[i];
        var l :| 0 <= l < |s| && s[l] == r[j];
        assert k == l;
        Twice(r, i, j);
        Once(s, k);
      }
    }
  }

  lemma Twice(r: seq<Contact>, i: nat, j: nat)
    requires i < j < |r| && r[i] == r[j]
    ensures multiset(r)[r[i]] >= 2
  {
    assert r == r[..i] + [r[i]] + r[i + 1..j] + [r[j]] + r[j + 1..];
  }

  lemma Once(s: seq<Contact>, k: nat)
    requires DistinctIds(s) && k < |s|
    ensures multiset(s)[s[k]] == 1
  {
    assert s == s[..k] + [s[k]] + s[k + 1..];
    assert s[k] !in s[..k] && s[k] !in s[k + 1..];
  }

  // ----------------------------------------------------------- uniqueness

  lemma {:induction false} AscendingUnique(target: ID, r: seq<Contact>, r': seq<Contact>)
    requires Ascending(target, r) && Ascending(target, r')
    requires |r| == |r'| && forall c :: c in r <==> c in r'
    ensures r == r'
  {
    if r != [] {
      assert r[0] in r' && r'[0] in r;
      assert r[0] == r'[0];
      forall c ensures c in r[1..] <==> c in r'[1..] {
        TailMembers(target, r, c);
        TailMembers(target, r', c);
      }
      AscendingUnique(target, r[1..], r'[1..]);
    }
  }

  lemma TailMembers(target: ID, r: seq<Contact>, c: Contact)
    requires r != [] && Ascending(target, r)
    ensures c in r[1..] <==> c in r && c != r[0]
  {
    if c in r && c != r[0] {
      var k :| 0 <= k < |r| && r[k] == c;
      assert r[1..][k - 1] == c;
    }
  }

  ghost function Elements(s: seq<Contact>): set<Contact> {
    set c | c in s
  }

  lemma {:induction false} AscendingSize(target: ID, r: seq<Contact>)
    requires Ascending(target, r)
    ensures |Elements(r)| == |r|
  {
    if r != [] {
      AscendingSize(target, r[1..]);
      assert Elements(r) == {r[0]} + Elements(r[1..]);
      TailMembers(target, r, r[0]);
    }
  }

  /** The promise determines the answer: neither the order in which buckets are
      gathered nor the instability of the sort can change it. */
  lemma ClosestUnique(target: ID, all: seq<Contact>, all': seq<Contact>, n: nat, r: seq<Contact>, r': seq<Contact>)
    requires |all| == |all'| && forall c :: c in all <==> c in all'
    requires IsClosest(target, all, n, r) && IsClosest(target, all', n, r')
    ensures r == r'
  {
    ClosestSubset(target, all, n, r, all', r');
    ClosestSubset(target, all', n, r', all, r);
    AscendingUnique(target, r, r');
  }

  lemma ClosestSubset(target: ID, all: seq<Contact>, n: nat, r: seq<Contact>, all': seq<Contact>, r': seq<Contact>)
    requires |all| == |all'| && forall c :: c in all <==> c in all'
    requires IsClosest(target, all, n, r) && IsClosest(target, all', n, r')
    ensures forall c :: c in r ==> c in r'
  {
    forall c | c in r ensures c in r' {
      if c !in r' {
        AscendingSize(target, r);
        AscendingSize(target, r');
        if Elements(r') <= Elements(r) - {c} {
          Smaller(Elements(r'), Elements(r) - {c});
        }
        assert false;
      }
    }
  }

  lemma {:induction false} Smaller(a: set<Contact>, b: set<Contact>)
    requires a <= b
    ensures |a| <= |b|
  {
    if a != {} {
      var x :| x in a;
      Smaller(a - {x}, b - {x});
    }
  }

  /** r is the strictly ascending arrangement of the contacts of s. */
  ghost predicate Arranges(target: ID, s: seq<Contact>, r: seq<Contact>) {
    Ascending(target, r) && |r| == |s| && forall c :: c in r <==> c in s
  }

  /** Cutting an ascending arrangement of the contacts to n gives the answer. */
  lemma CutIsClosest(target: ID, all: seq<Contact>, s: seq<Contact>, n: nat)
    requires Arranges(target, all, s)
    ensures IsClosest(target, all, n, if |s| > n then s[..n] else s)
  {
    var r := if |s| > n then s[..n] else s;
    forall c | c in r ensures c in all {
      var k :| 0 <= k < |r| && r[k] == c;
      assert s[k] == c;
    }
    forall c, x | c in all && c !in r && x in r ensures Distance(target, x.id) < Distance(target, c.id) {
      var k :| 0 <= k < |s| && s[k] == c;
      var j :| 0 <= j < |r| && r[j] == x;
      assert k < |r| ==> r[k] == c;
    }
  }

  // ---------------------------------------------------------- bucket walk

  /** Buckets k-1 down to 0, each sorted by distance. */
  function Down(target: ID, t: Buckets, k: nat): seq<Contact>
    requires k <= BUCKETS
  {
    if k == 0 then [] else Sorted(target, t[k - 1]) + Down(target, t, k - 1)
  }

  /** Search by bucket: the target's own bucket, then everything deeper, then
      the shallower buckets from the deepest to the shallowest. */
  function BucketWalk(self: ID, t: Buckets, target: ID): seq<Contact> {
    var b := BucketIndex(self, target);
    if b == BUCKETS then Down(target, t, BUCKETS)
    else Sorted(target, t[b]) + Sorted(target, Flatten(t[b + 1..])) + Down(target, t, b)
  }

  lemma {:induction false} FlattenAppend(a: seq<seq<Contact>>, b: seq<seq<Contact>>)
    ensures Flatten(a + b) == Flatten(a) + Flatten(b)
    decreases |b|
  {
    if b == [] {
      assert a + b == a;
    } else {
      assert (a + b)[..|a + b| - 1] == a + b[..|b| - 1];
      FlattenAppend(a, b[..|b| - 1]);
    }
  }

  lemma {:induction false} FlattenMember(t: seq<seq<Contact>>, c: Contact)
    ensures c in Flatten(t) <==> exists i :: 0 <= i < |t| && c in t[i]
  {
    if t != [] {
      var front := t[..|t| - 1];
      FlattenMember(front, c);
      if i :| 0 <= i < |t| && c in t[i] {
        assert i < |front| ==> c in front[i];
      }
      if i :| 0 <= i < |front| && c in front[i] {
        assert c in t[i];
      }
    }
  }

  /** Contacts gathered from well-formed buckets, one per index, never repeat an ID. */
  lemma {:induction false} FlattenDistinct(self: ID, t: seq<seq<Contact>>, base: nat)
    requires forall i :: 0 <= i < |t| ==> WellFormedBucket(self, base + i, t[i])
    ensures DistinctIds(Flatten(t))
    ensures forall c :: c in Flatten(t) ==> base <= BucketIndex(self, c.id) < base + |t|
  {
    if t != [] {
      var last := t[|t| - 1];
      var front := Flatten(t[..|t| - 1]);
      FlattenDistinct(self, t[..|t| - 1], base);
      assert WellFormedBucket(self, base + |t| - 1, last);
      assert forall k :: 0 <= k < |front| ==> front[k] in front;
    }
  }

  /** Sorting a list of distinct IDs gives its strictly ascending arrangement. */
  lemma SortedArranges(target: ID, s: seq<Contact>)
    requires DistinctIds(s)
    ensures Arranges(target, s, Sorted(target, s))
  {
    SortedContents(target, s);
    SortedOrdered(target, s);
    SortIsAscending(target, s, Sorted(target, s));
  }

  /** A part that is nearer throughout goes in front. */
  lemma NearerFirst(target: ID, far: seq<Contact>, r: seq<Contact>, near: seq<Contact>, r': seq<Contact>, k: nat)
    requires Arranges(target, far, r) && Arranges(target, near, r')
    requires forall c :: c in far ==> BucketIndex(target, c.id) < k
    requires forall c :: c in near ==> BucketIndex(target, c.id) >= k
    ensures Arranges(target, far + near, r' + r)
    ensures Arranges(target, near + far, r' + r)
  {
    assert AllCloser(target, r', r) by {
      forall i, j | 0 <= i < |r'| && 0 <= j < |r| ensures Distance(target, r'[i].id) < Distance(target, r[j].id) {
        assert r'[i] in near && r[j] in far;
        DeeperIsCloser(target, r'[i].id, r[j].id);
      }
    }
  }

  /** Where a set of contacts lies, seen from the target. */
  lemma ShallowBucket(self: ID, k: nat, bucket: seq<Contact>, target: ID)
    requires WellFormedBucket(self, k, bucket) && k < BucketIndex(self, target)
    ensures forall c :: c in bucket ==> BucketIndex(target, c.id) == k
  {
    forall c | c in bucket ensures BucketIndex(target, c.id) == k {
      BucketSeenFrom(self, target, c.id);
    }
  }

  lemma OwnBucket(self: ID, b: nat, bucket: seq<Contact>, target: ID)
    requires WellFormedBucket(self, b, bucket) && b == BucketIndex(self, target) < BUCKETS
    ensures forall c :: c in bucket ==> BucketIndex(target, c.id) >= b + 1
  {
    forall c | c in bucket ensures BucketIndex(target, c.id) >= b + 1 {
      BucketSeenFrom(self, target, c.id);
    }
  }

  lemma DeeperBuckets(self: ID, deeper: seq<Contact>, target: ID)
    requires forall c :: c in deeper ==> BucketIndex(self, c.id) > BucketIndex(self, target)
    ensures forall c :: c in deeper ==> BucketIndex(target, c.id) == BucketIndex(self, target)
  {
    forall c | c in deeper ensures BucketIndex(target, c.id) == BucketIndex(self, target) {
      BucketSeenFrom(self, target, c.id);
    }
  }

  lemma {:induction false} DownWalk(self: ID, t: Buckets, target: ID, k: nat)
    requires WellFormed(self, t) && k <= BucketIndex(self, target) && k <= BUCKETS
    ensures Arranges(target, Flatten(t[..k]), Down(target, t, k))
    ensures forall c :: c in Flatten(t[..k]) ==> BucketIndex(target, c.id) < k
  {
    if k > 0 {
      assert t[..k][..k - 1] == t[..k - 1];
      assert Flatten(t[..k]) == Flatten(t[..k - 1]) + t[k - 1];
      DownWalk(self, t, target, k - 1);
      assert WellFormedBucket(self, k - 1, t[k - 1]);
      SortedArranges(target, t[k - 1]);
      ShallowBucket(self, k - 1, t[k - 1], target);
      NearerFirst(target, Flatten(t[..k - 1]), Down(target, t, k - 1), t[k - 1], Sorted(target, t[k - 1]), k - 1);
    }
  }

  lemma NearWalk(self: ID, t: Buckets, target: ID)
    requires WellFormed(self, t) && BucketIndex(self, target) < BUCKETS
    ensures var b := BucketIndex(self, target);
            var near := t[b] + Flatten(t[b + 1..]);
            && Arranges(target, near, Sorted(target, t[b]) + Sorted(target, Flatten(t[b + 1..])))
            && (forall c :: c in near ==> BucketIndex(target, c.id) >= b)
  {
    var b := BucketIndex(self, target);
    var deeper := Flatten(t[b + 1..]);
    assert WellFormedBucket(self, b, t[b]);
    FlattenDistinct(self, t[b + 1..], b + 1);
    SortedArranges(target, t[b]);
    SortedArranges(target, deeper);
    OwnBucket(self, b, t[b], target);
    DeeperBuckets(self, deeper, target);
    NearerFirst(target, deeper, Sorted(target, deeper), t[b], Sorted(target, t[b]), b + 1);
  }

  /** The walk visits every contact of the table, strictly nearer ones first. */
  lemma BucketWalkSorts(self: ID, t: Buckets, target: ID)
    requires WellFormed(self, t)
    ensures Arranges(target, Flatten(t), BucketWalk(self, t, target))
  {
    var b := BucketIndex(self, target);
    if b == BUCKETS {
      assert t[..BUCKETS] == t;
      DownWalk(self, t, target, BUCKETS);
    } else {
      SplitAt(t, b);
      NearWalk(self, t, target);
      DownWalk(self, t, target, b);
      NearerFirst(target, Flatten(t[..b]), Down(target, t, b),
                  t[b] + Flatten(t[b + 1..]), Sorted(target, t[b]) + Sorted(target, Flatten(t[b + 1..])), b);
    }
  }

  lemma SplitAt(t: Buckets, b: nat)
    requires b < BUCKETS
    ensures Flatten(t) == Flatten(t[..b]) + (t[b] + Flatten(t[b + 1..]))
  {
    assert t == t[..b] + ([t[b]] + t[b + 1..]);
    FlattenAppend(t[..b], [t[b]] + t[b + 1..]);
    FlattenAppend([t[b]], t[b + 1..]);
    assert Flatten([t[b]]) == t[b];
  }

  /** For every well-formed table and every target, sorting everything and
      cutting to n is the bucket walk cut to n. */
  lemma ClosestIsBucketWalk(self: ID, t: Buckets, target: ID, n: nat, r: seq<Contact>)
    requires WellFormed(self, t)
    requires IsClosest(target, Flatten(t), n, r)
    ensures var walk := BucketWalk(self, t, target);
            r == if |walk| > n then walk[..n] else walk
  {
    var walk := BucketWalk(self, t, target);
    BucketWalkSorts(self, t, target);
    CutIsClosest(target, Flatten(t), walk, n);
    ClosestUnique(target, Flatten(t), Flatten(t), n, r, if |walk| > n then walk[..n] else walk);
  }
}
