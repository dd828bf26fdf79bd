/** When the list gathered by `KnownPeers` and `closest` of pkg/dht/kademlia.go
    is the table itself, endpoints included, at one moment of the reads.

    An insert changes the table by admitting a contact or by refreshing the
    endpoints of a known one.
 */
module Snapshot {
  import opened XorMetric
  import opened RoutingTable
  import opened Closest
  import opened DhtTable

  /** Insert n changes the table. */
  ghost predicate Changes(self: ID, history: seq<Contact>, landed: seq<Contact>, n: int)
    requires 0 <= n < |landed|
  {
    TableAt(self, history, landed, n) != TableAt(self, history, landed, n + 1)
  }

  /** Insert n changes a bucket that had been read already. */
  ghost predicate MissedChange(self: ID, history: seq<Contact>, schedule: seq<seq<Contact>>, n: int)
    requires |schedule| == BUCKETS && 0 <= n < |Flatten(schedule)|
  {
    var b := BucketIndex(self, Flatten(schedule)[n].id);
    b < BUCKETS && Changes(self, history, Flatten(schedule), n) && n >= ReadAt(schedule, b)
  }

  /** Insert n changes a bucket that was still to be read. */
  ghost predicate SeenChange(self: ID, history: seq<Contact>, schedule: seq<seq<Contact>>, n: int)
    requires |schedule| == BUCKETS && 0 <= n < |Flatten(schedule)|
  {
    var b := BucketIndex(self, Flatten(schedule)[n].id);
    b < BUCKETS && Changes(self, history, Flatten(schedule), n) && n < ReadAt(schedule, b)
  }

  /** No missed change comes before a seen one. */
  ghost predicate SeenChangesFirst(self: ID, history: seq<Contact>, schedule: seq<seq<Contact>>)
    requires |schedule| == BUCKETS
  {
    forall n, n' :: 0 <= n < n' < |Flatten(schedule)| ==>
      !(MissedChange(self, history, schedule, n) && SeenChange(self, history, schedule, n'))
  }

  /** The gathered list is what an undisturbed gathering returns at moment m. */
  ghost predicate WholeAt(self: ID, history: seq<Contact>, schedule: seq<seq<Contact>>, m: int)
    requires |schedule| == BUCKETS && 0 <= m <= |Flatten(schedule)|
  {
    Flatten(Pieces(self, history, schedule)) == Flatten(TableAt(self, history, Flatten(schedule), m))
  }

  /** The gathered list is the table, contacts and all, at one moment of the reads. */
  ghost predicate Whole(self: ID, history: seq<Contact>, schedule: seq<seq<Contact>>)
    requires |schedule| == BUCKETS
  {
    exists m :: 0 <= m <= |Flatten(schedule)| && WholeAt(self, history, schedule, m)
  }

  // ------------------------------------------- a list shows which table it is

  /** Every contact of s lies in bucket `lo` or deeper, but not as deep as `hi`. */
  ghost predicate InBuckets(self: ID, s: seq<Contact>, lo: int, hi: int) {
    forall k :: 0 <= k < |s| ==> lo <= BucketIndex(self, s[k].id) < hi
  }

  lemma Overlap(a: seq<Contact>, u: seq<Contact>, a': seq<Contact>, u': seq<Contact>)
    requires a + u == a' + u' && |u| < |u'|
    ensures |a'| < |a| && a[|a'|] == u'[0]
  {
    assert (a + u)[|a'|] == (a' + u')[|a'|];
  }

  lemma LastPart(self: ID, a: seq<Contact>, u: seq<Contact>, a': seq<Contact>, u': seq<Contact>, n: nat)
    requires a + u == a' + u' && |u| <= |u'|
    requires InBuckets(self, u', n, n + 1) && InBuckets(self, a, 0, n)
    ensures a == a' && u == u'
  {
    if |u| < |u'| {
      Overlap(a, u, a', u');
    }
    var all := a + u;
    assert a == all[..|a|] && u == all[|a|..];
    assert a' == all[..|a'|] && u' == all[|a'|..];
  }

  lemma {:induction false} FlattenInjective(self: ID, t: seq<seq<Contact>>, t': seq<seq<Contact>>)
    requires |t| == |t'| && Flatten(t) == Flatten(t')
    requires forall k :: 0 <= k < |t| ==> WellFormedBucket(self, k, t[k]) && WellFormedBucket(self, k, t'[k])
    ensures t == t'
  {
    if t != [] {
      var n := |t| - 1;
      var a, a' := Flatten(t[..n]), Flatten(t'[..n]);
      FlattenDistinct(self, t[..n], 0);
      FlattenDistinct(self, t'[..n], 0);
      assert InBuckets(self, a, 0, n) && InBuckets(self, a', 0, n);
      if |t[n]| <= |t'[n]| {
        LastPart(self, a, t[n], a', t'[n], n);
      } else {
        LastPart(self, a', t'[n], a, t[n], n);
      }
      FlattenInjective(self, t[..n], t'[..n]);
      assert t == t[..n] + [t[n]] && t' == t'[..n] + [t'[n]];
    }
  }

  lemma WholeAtIff(self: ID, history: seq<Contact>, schedule: seq<seq<Contact>>, m: nat)
    requires |schedule| == BUCKETS && m <= |Flatten(schedule)|
    ensures WholeAt(self, history, schedule, m) <==>
              Pieces(self, history, schedule) == TableAt(self, history, Flatten(schedule), m)
  {
    if WholeAt(self, history, schedule, m) {
      PiecesWellFormed(self, history, schedule);
      ReplayWellFormed(self, history + Flatten(schedule)[..m]);
      FlattenInjective(self, Pieces(self, history, schedule), TableAt(self, history, Flatten(schedule), m));
    }
  }

  // ------------------------------------------------------ one bucket in time

  lemma BucketNext(self: ID, history: seq<Contact>, landed: seq<Contact>, n: nat, k: nat)
    requires n < |landed| && k < BUCKETS
    ensures var b := TableAt(self, history, landed, n)[k];
            TableAt(self, history, landed, n + 1)[k] ==
            if BucketIndex(self, landed[n].id) == k then InsertBucket(b, landed[n]) else b
  {
    TableNext(self, history, landed, n);
  }

  /** A change changes the bucket of its contact, and no other. */
  lemma ChangesOneBucket(self: ID, history: seq<Contact>, landed: seq<Contact>, n: nat)
    requires n < |landed| && Changes(self, history, landed, n)
    ensures var b := BucketIndex(self, landed[n].id);
            b < BUCKETS && TableAt(self, history, landed, n)[b] != TableAt(self, history, landed, n + 1)[b]
  {
    TableNext(self, history, landed, n);
  }

  ghost function BucketIs(self: ID, history: seq<Contact>, landed: seq<Contact>, k: nat, b: seq<Contact>): int -> bool
    requires k < BUCKETS
  {
    m => 0 <= m <= |landed| && TableAt(self, history, landed, m)[k] == b
  }

  /** A bucket that differs between two moments was changed in between. */
  lemma ChangedBetween(self: ID, history: seq<Contact>, landed: seq<Contact>, k: nat, p: nat, q: nat) returns (n: nat)
    requires k < BUCKETS && p <= q <= |landed|
    requires TableAt(self, history, landed, p)[k] != TableAt(self, history, landed, q)[k]
    ensures p <= n < q && Changes(self, history, landed, n) && BucketIndex(self, landed[n].id) == k
  {
    n := FirstFlip(BucketIs(self, history, landed, k, TableAt(self, history, landed, q)[k]), p, q);
    BucketNext(self, history, landed, n, k);
  }

  /** What is read of bucket k is bucket k at the moment it is read. */
  lemma PieceAt(self: ID, history: seq<Contact>, schedule: seq<seq<Contact>>, k: nat)
    requires |schedule| == BUCKETS && k < BUCKETS
    ensures ReadAt(schedule, k) <= |Flatten(schedule)|
    ensures Pieces(self, history, schedule)[k] == TableAt(self, history, Flatten(schedule), ReadAt(schedule, k))[k]
  {
    ReadAtMoment(schedule, k);
  }

  // ----------------------------------------------- no torn read is sufficient

  /** A moment before which no change was missed and from which on none is seen. */
  ghost predicate ChangeCut(self: ID, history: seq<Contact>, schedule: seq<seq<Contact>>, m: nat)
    requires |schedule| == BUCKETS && m <= |Flatten(schedule)|
  {
    && (forall n :: 0 <= n < m ==> !MissedChange(self, history, schedule, n))
    && (forall n :: m <= n < |Flatten(schedule)| ==> !SeenChange(self, history, schedule, n))
  }

  lemma CutBucket(self: ID, history: seq<Contact>, schedule: seq<seq<Contact>>, m: nat, k: nat)
    requires |schedule| == BUCKETS && m <= |Flatten(schedule)| && ChangeCut(self, history, schedule, m) && k < BUCKETS
    ensures Pieces(self, history, schedule)[k] == TableAt(self, history, Flatten(schedule), m)[k]
  {
    var r, ev := ReadAt(schedule, k), Flatten(schedule);
    PieceAt(self, history, schedule, k);
    if TableAt(self, history, ev, r)[k] != TableAt(self, history, ev, m)[k] {
      if r <= m {
        var n := ChangedBetween(self, history, ev, k, r, m);
        assert MissedChange(self, history, schedule, n);
      } else {
        var n := ChangedBetween(self, history, ev, k, m, r);
        assert SeenChange(self, history, schedule, n);
      }
    }
  }

  ghost function MissedChangeAt(self: ID, history: seq<Contact>, schedule: seq<seq<Contact>>): int -> bool
    requires |schedule| == BUCKETS
  {
    k => 0 <= k < |Flatten(schedule)| && MissedChange(self, history, schedule, k)
  }

  lemma FirstMissedChange(self: ID, history: seq<Contact>, schedule: seq<seq<Contact>>) returns (cut: nat)
    requires |schedule| == BUCKETS && SeenChangesFirst(self, history, schedule)
    ensures cut <= |Flatten(schedule)| && ChangeCut(self, history, schedule, cut)
  {
    var missed := MissedChangeAt(self, history, schedule);
    cut := Least(missed, 0, |Flatten(schedule)|);
    forall k | 0 <= k < cut ensures !MissedChange(self, history, schedule, k) {
      assert !missed(k);
    }
  }

  /** In every run without a missed change before a seen one, what is gathered is
      the table itself at the moment of the first missed change. */
  lemma WholeIfSeenFirst(self: ID, history: seq<Contact>, schedule: seq<seq<Contact>>)
    requires |schedule| == BUCKETS && SeenChangesFirst(self, history, schedule)
    ensures Whole(self, history, schedule)
  {
    var m := FirstMissedChange(self, history, schedule);
    forall k | 0 <= k < BUCKETS
      ensures Pieces(self, history, schedule)[k] == TableAt(self, history, Flatten(schedule), m)[k]
    {
      CutBucket(self, history, schedule, m, k);
    }
    WholeAtIff(self, history, schedule, m);
  }

  // ------------------------------------------------- and necessary, unless ABA

  /** No bucket gets back contents it had before. */
  ghost predicate NoReturn(self: ID, history: seq<Contact>, landed: seq<Contact>) {
    forall k, i, j, l :: 0 <= k < BUCKETS && 0 <= i <= j <= l <= |landed| ==>
      SameIfReturned(self, history, landed, k, i, j, l)
  }

  ghost predicate SameIfReturned(self: ID, history: seq<Contact>, landed: seq<Contact>, k: nat, i: nat, j: nat, l: nat)
    requires k < BUCKETS && i <= j <= l <= |landed|
  {
    TableAt(self, history, landed, i)[k] == TableAt(self, history, landed, l)[k] ==>
      TableAt(self, history, landed, j)[k] == TableAt(self, history, landed, i)[k]
  }

  /** A bucket is never again as it was before a change. */
  lemma ChangedForGood(self: ID, history: seq<Contact>, landed: seq<Contact>, n: nat, i: nat, l: nat)
    requires NoReturn(self, history, landed) && i <= n < l <= |landed| && Changes(self, history, landed, n)
    requires BucketIndex(self, landed[n].id) < BUCKETS
    ensures var b := BucketIndex(self, landed[n].id);
            TableAt(self, history, landed, i)[b] != TableAt(self, history, landed, l)[b]
  {
    var b := BucketIndex(self, landed[n].id);
    ChangesOneBucket(self, history, landed, n);
    assert SameIfReturned(self, history, landed, b, i, n, l);
    assert SameIfReturned(self, history, landed, b, i, n + 1, l);
  }

  lemma TornRead(self: ID, history: seq<Contact>, schedule: seq<seq<Contact>>, n: nat, n': nat, m: nat)
    requires |schedule| == BUCKETS && n < n' < |Flatten(schedule)| && m <= |Flatten(schedule)|
    requires NoReturn(self, history, Flatten(schedule))
    requires MissedChange(self, history, schedule, n) && SeenChange(self, history, schedule, n')
    ensures Pieces(self, history, schedule) != TableAt(self, history, Flatten(schedule), m)
  {
    var ev := Flatten(schedule);
    var b, b' := BucketIndex(self, ev[n].id), BucketIndex(self, ev[n'].id);
    PieceAt(self, history, schedule, b);
    PieceAt(self, history, schedule, b');
    if m <= n' {
      ChangedForGood(self, history, ev, n', m, ReadAt(schedule, b'));
    } else {
      ChangedForGood(self, history, ev, n, ReadAt(schedule, b), m);
    }
  }

  /** When no bucket gets back contents it had before, the gathered list is the
      table at one moment if and only if no missed change precedes a seen one. */
  lemma WholeIff(self: ID, history: seq<Contact>, schedule: seq<seq<Contact>>)
    requires |schedule| == BUCKETS && NoReturn(self, history, Flatten(schedule))
    ensures Whole(self, history, schedule) <==> SeenChangesFirst(self, history, schedule)
  {
    if SeenChangesFirst(self, history, schedule) {
      WholeIfSeenFirst(self, history, schedule);
    } else {
      var n, n' :| 0 <= n < n' < |Flatten(schedule)|
                   && MissedChange(self, history, schedule, n) && SeenChange(self, history, schedule, n');
      forall m | 0 <= m <= |Flatten(schedule)| ensures !WholeAt(self, history, schedule, m) {
        WholeAtIff(self, history, schedule, m);
        TornRead(self, history, schedule, n, n', m);
      }
    }
  }

  // ------------------------------------------ the condition on what arrives

  /** Positions a <= b <= c of the inserts announce the same ID. */
  ghost predicate SameId(h: seq<Contact>, a: int, b: int, c: int) {
    0 <= a <= b <= c < |h| && h[a].id == h[b].id == h[c].id
  }

  /** No ID announces again an endpoint, or a public endpoint, that it replaced. */
  ghost predicate Settled(h: seq<Contact>) {
    forall a, b, c :: SameId(h, a, b, c) ==>
      && (h[a].endpoint == h[c].endpoint ==> h[b].endpoint == h[a].endpoint)
      && (h[a].publicEndpoint == h[c].publicEndpoint != "" && h[b].publicEndpoint != "" ==>
            h[b].publicEndpoint == h[a].publicEndpoint)
  }

  /** Where the last endpoint of an ID was announced. */
  lemma {:induction false} LastEndpointAt(h: seq<Contact>, id: ID) returns (a: nat)
    requires Mentions(h, id)
    ensures a < |h| && h[a].id == id && h[a].endpoint == LastEndpoint(h, id)
    ensures forall j :: a < j < |h| ==> h[j].id != id
  {
    var n := |h| - 1;
    if h[n].id == id {
      a := n;
    } else {
      assert h == h[..n] + [h[n]];
      MentionsSnoc(h[..n], h[n], id);
      a := LastEndpointAt(h[..n], id);
    }
  }

  /** Where the last non-empty public endpoint of an ID was announced. */
  lemma {:induction false} LastPublicAt(h: seq<Contact>, id: ID) returns (a: nat)
    requires LastPublicEndpoint(h, id) != ""
    ensures a < |h| && h[a].id == id && h[a].publicEndpoint == LastPublicEndpoint(h, id)
    ensures forall j :: a < j < |h| && h[j].id == id ==> h[j].publicEndpoint == ""
  {
    var n := |h| - 1;
    if h[n].id == id && h[n].publicEndpoint != "" {
      a := n;
    } else {
      a := LastPublicAt(h[..n], id);
    }
  }

  lemma {:induction false} PublicAnnounced(h: seq<Contact>, id: ID, a: nat)
    requires a < |h| && h[a].id == id && h[a].publicEndpoint != ""
    ensures LastPublicEndpoint(h, id) != ""
  {
    if a < |h| - 1 {
      PublicAnnounced(h[..|h| - 1], id, a);
    }
  }

  lemma EndpointSettled(h: seq<Contact>, i: nat, j: nat, l: nat, id: ID)
    requires Settled(h) && i <= j <= l <= |h| && Mentions(h[..i], id) && Mentions(h[..j], id) && Mentions(h[..l], id)
    requires LastEndpoint(h[..i], id) == LastEndpoint(h[..l], id)
    ensures LastEndpoint(h[..j], id) == LastEndpoint(h[..i], id)
  {
    var a := LastEndpointAt(h[..i], id);
    var b := LastEndpointAt(h[..j], id);
    var c := LastEndpointAt(h[..l], id);
    assert h[..j][a] == h[a] && h[..l][b] == h[b];
    assert SameId(h, a, b, c);
  }

  lemma PublicSettled(h: seq<Contact>, i: nat, j: nat, l: nat, id: ID)
    requires Settled(h) && i <= j <= l <= |h|
    requires LastPublicEndpoint(h[..i], id) == LastPublicEndpoint(h[..l], id)
    ensures LastPublicEndpoint(h[..j], id) == LastPublicEndpoint(h[..i], id)
  {
    if LastPublicEndpoint(h[..j], id) != "" {
      var b := LastPublicAt(h[..j], id);
      assert h[..l][b] == h[b];
      PublicAnnounced(h[..l], id, b);
      var a := LastPublicAt(h[..i], id);
      var c := LastPublicAt(h[..l], id);
      assert h[..j][a] == h[a];
      assert SameId(h, a, b, c);
    } else if LastPublicEndpoint(h[..i], id) != "" {
      var a := LastPublicAt(h[..i], id);
      assert h[..j][a] == h[a];
      PublicAnnounced(h[..j], id, a);
    }
  }

  lemma FirstSettled(h: seq<Contact>, i: nat, j: nat, id: ID)
    requires i <= j <= |h| && Mentions(h[..i], id) && Mentions(h[..j], id)
    ensures FirstOf(h[..j], id) == FirstOf(h[..i], id)
  {
    assert h[..j][..i] == h[..i];
    FirstOfPrefix(h[..j], i, id);
  }

  ghost predicate AllMention(h: seq<Contact>, i: nat, j: nat, l: nat, id: ID)
    requires i <= j <= l <= |h|
  {
    Mentions(h[..i], id) && Mentions(h[..j], id) && Mentions(h[..l], id)
  }

  /** What is remembered of an ID does not return once it changed. */
  lemma RememberedSettled(h: seq<Contact>, i: nat, j: nat, l: nat, id: ID)
    requires Settled(h) && i <= j <= l <= |h| && AllMention(h, i, j, l, id)
    requires Remembered(h[..i], id) == Remembered(h[..l], id)
    ensures Remembered(h[..j], id) == Remembered(h[..i], id)
  {
    EndpointSettled(h, i, j, l, id);
    PublicSettled(h, i, j, l, id);
    FirstSettled(h, i, j, id);
  }

  lemma {:induction false} FirstOfPrefix(h: seq<Contact>, i: nat, id: ID)
    requires i <= |h| && Mentions(h[..i], id) && Mentions(h, id)
    ensures FirstOf(h, id) == FirstOf(h[..i], id)
    decreases |h|
  {
    if i == |h| {
      assert h[..i] == h;
    } else {
      var n := |h| - 1;
      assert h == h[..n] + [h[n]] && h[..n][..i] == h[..i];
      MentionsPrefix(h[..n], i, id);
      FirstOfPrefix(h[..n], i, id);
      FirstOfSnoc(h[..n], h[n], id);
    }
  }

  lemma MentionsPrefix(h: seq<Contact>, i: nat, id: ID)
    requires i <= |h| && Mentions(h[..i], id)
    ensures Mentions(h, id)
  {
    var j :| 0 <= j < |h[..i]| && h[..i][j].id == id;
    assert h[j].id == id;
  }

  lemma ContactsSettled(self: ID, h: seq<Contact>, k: nat, i: nat, j: nat, l: nat, b: seq<Contact>, b': seq<Contact>)
    requires Settled(h) && i <= j <= l <= |h| && Grows(b, b') && |b'| == |b|
    requires BucketIsHistory(self, h[..i], k, b) && BucketIsHistory(self, h[..j], k, b')
             && BucketIsHistory(self, h[..l], k, b)
    ensures b' == b
  {
    forall q | 0 <= q < |b| ensures b'[q] == b[q] {
      assert b'[q].id == b[q].id;
      assert AllMention(h, i, j, l, b[q].id);
      RememberedSettled(h, i, j, l, b[q].id);
    }
  }

  /** A bucket of a settled history never gets back contents it had before. */
  lemma BucketSettled(self: ID, h: seq<Contact>, k: nat, i: nat, j: nat, l: nat)
    requires Settled(h) && k < BUCKETS && i <= j <= l <= |h|
    ensures Replay(self, h[..i])[k] == Replay(self, h[..l])[k] ==> Replay(self, h[..j])[k] == Replay(self, h[..i])[k]
  {
    PrefixGrows(self, h, i, j, k);
    PrefixGrows(self, h, j, l, k);
    TableIsHistory(self, h[..i], k);
    TableIsHistory(self, h[..j], k);
    TableIsHistory(self, h[..l], k);
    if Replay(self, h[..i])[k] == Replay(self, h[..l])[k] {
      ContactsSettled(self, h, k, i, j, l, Replay(self, h[..i])[k], Replay(self, h[..j])[k]);
    }
  }

  lemma PrefixGrows(self: ID, h: seq<Contact>, i: nat, j: nat, k: nat)
    requires i <= j <= |h| && k < BUCKETS
    ensures Grows(Replay(self, h[..i])[k], Replay(self, h[..j])[k])
  {
    assert h[..j] == h[..i] + h[i..j];
    ReplayGrows(self, h[..i], h[i..j], k);
  }

  lemma PrefixesSettled(self: ID, h: seq<Contact>, h': seq<Contact>, h'': seq<Contact>, k: nat)
    requires Settled(h'') && h <= h' <= h'' && k < BUCKETS
    ensures Replay(self, h)[k] == Replay(self, h'')[k] ==> Replay(self, h')[k] == Replay(self, h)[k]
  {
    assert h''[..|h|] == h && h''[..|h'|] == h' && h''[..|h''|] == h'';
    BucketSettled(self, h'', k, |h|, |h'|, |h''|);
  }

  lemma SettledPrefix(h: seq<Contact>, h': seq<Contact>)
    requires Settled(h') && h <= h'
    ensures Settled(h)
  {
    forall a, b, c | SameId(h, a, b, c) ensures SameId(h', a, b, c) && h[a] == h'[a] && h[b] == h'[b] && h[c] == h'[c] {
    }
  }

  lemma LandedPrefix(history: seq<Contact>, landed: seq<Contact>, i: nat, j: nat)
    requires i <= j <= |landed|
    ensures history + landed[..i] <= history + landed[..j]
  {
  }

  lemma SettledReturn(self: ID, history: seq<Contact>, landed: seq<Contact>, k: nat, i: nat, j: nat, l: nat)
    requires k < BUCKETS && i <= j <= l <= |landed| && Settled(history + landed[..l])
    ensures SameIfReturned(self, history, landed, k, i, j, l)
  {
    LandedPrefix(history, landed, i, j);
    LandedPrefix(history, landed, j, l);
    PrefixesSettled(self, history + landed[..i], history + landed[..j], history + landed[..l], k);
  }

  lemma SettledNeverReturns(self: ID, history: seq<Contact>, landed: seq<Contact>)
    requires Settled(history + landed)
    ensures NoReturn(self, history, landed)
  {
    forall k, i, j, l | 0 <= k < BUCKETS && 0 <= i <= j <= l <= |landed|
      ensures SameIfReturned(self, history, landed, k, i, j, l)
    {
      SettledPrefix(history + landed[..l], history + landed);
      SettledReturn(self, history, landed, k, i, j, l);
    }
  }

  /** So where no ID announces again an endpoint it replaced, the gathered list is
      the table at one moment if and only if no missed change precedes a seen one. */
  lemma SettledWholeIff(self: ID, history: seq<Contact>, schedule: seq<seq<Contact>>)
    requires |schedule| == BUCKETS && Settled(history + Flatten(schedule))
    ensures Whole(self, history, schedule) <==> SeenChangesFirst(self, history, schedule)
  {
    SettledNeverReturns(self, history, Flatten(schedule));
    WholeIff(self, history, schedule);
  }

  // ------------------------------------------------------- two families of runs

  lemma OneContact(c: Contact, d: Contact)
    ensures InsertBucket([], c) == [c]
    ensures d.id == c.id ==> InsertBucket([c], d) == [Refreshed(c, d)]
  {
  }

  lemma FirstTwo(self: ID, x: Contact, y: Contact)
    requires BucketIndex(self, x.id) < BucketIndex(self, y.id) < BUCKETS
    ensures Replay(self, [x])[BucketIndex(self, x.id)] == [x] && Replay(self, [x])[BucketIndex(self, y.id)] == []
    ensures Replay(self, [x, y])[BucketIndex(self, x.id)] == [x] && Replay(self, [x, y])[BucketIndex(self, y.id)] == [y]
  {
    assert [] + [x] == [x] && [x] + [y] == [x, y];
    InsertAllSnoc(self, Empty(), [], x);
    InsertAllSnoc(self, Empty(), [x], y);
    OneContact(x, x);
    OneContact(y, y);
  }

  /** How two refreshes change the two buckets. */
  lemma Refreshes(self: ID, x: Contact, y: Contact, x': Contact, y': Contact)
    requires BucketIndex(self, x.id) < BucketIndex(self, y.id) < BUCKETS && x'.id == x.id && y'.id == y.id
    ensures var i, j, m := BucketIndex(self, x.id), BucketIndex(self, y.id), [x', y'];
            && TableAt(self, [x, y], m, 0)[i] == [x] && TableAt(self, [x, y], m, 0)[j] == [y]
            && TableAt(self, [x, y], m, 1)[i] == [Refreshed(x, x')] && TableAt(self, [x, y], m, 1)[j] == [y]
            && TableAt(self, [x, y], m, 2)[i] == [Refreshed(x, x')]
            && TableAt(self, [x, y], m, 2)[j] == [Refreshed(y, y')]
  {
    var i, j, m := BucketIndex(self, x.id), BucketIndex(self, y.id), [x', y'];
    assert [x, y] + m[..0] == [x, y];
    FirstTwo(self, x, y);
    OneContact(x, x');
    OneContact(y, y');
    BucketNext(self, [x, y], m, 0, i);
    BucketNext(self, [x, y], m, 0, j);
    BucketNext(self, [x, y], m, 1, i);
    BucketNext(self, [x, y], m, 1, j);
  }

  /** A refresh admits nothing, so the gathered IDs are those of every moment. */
  lemma RefreshKeepsIds(self: ID, x: Contact, y: Contact, x': Contact, y': Contact)
    requires BucketIndex(self, x.id) < BucketIndex(self, y.id) < BUCKETS && x'.id == x.id && y'.id == y.id
    ensures Atomic(self, [x, y], Late([x', y'], BucketIndex(self, x.id)))
  {
    Refreshes(self, x, y, x', y');
    assert TableAt(self, [x, y], [x', y'], 0)[BucketIndex(self, x.id)][0].id == x.id;
    assert TableAt(self, [x, y], [x', y'], 1)[BucketIndex(self, y.id)][0].id == y.id;
    LateReads([x', y'], BucketIndex(self, x.id));
    AtomicIff(self, [x, y], Late([x', y'], BucketIndex(self, x.id)));
  }

  /** The first contact is read before its refresh, the second one after. */
  lemma ReadAround(self: ID, x: Contact, y: Contact, x': Contact, y': Contact)
    requires BucketIndex(self, x.id) < BucketIndex(self, y.id) < BUCKETS && x'.id == x.id && y'.id == y.id
    ensures var pieces := Pieces(self, [x, y], Late([x', y'], BucketIndex(self, x.id)));
            pieces[BucketIndex(self, x.id)] == [x] && pieces[BucketIndex(self, y.id)] == [Refreshed(y, y')]
  {
    var i := BucketIndex(self, x.id);
    LateReads([x', y'], i);
    Refreshes(self, x, y, x', y');
    PieceAt(self, [x, y], Late([x', y'], i), i);
    PieceAt(self, [x, y], Late([x', y'], i), BucketIndex(self, y.id));
  }

  lemma NeverRefreshedSo(self: ID, x: Contact, y: Contact, x': Contact, y': Contact, m: nat)
    requires BucketIndex(self, x.id) < BucketIndex(self, y.id) < BUCKETS && x'.id == x.id && y'.id == y.id
    requires Refreshed(x, x') != x && Refreshed(y, y') != y && m <= 2
    ensures Flatten(Late([x', y'], BucketIndex(self, x.id))) == [x', y']
    ensures !WholeAt(self, [x, y], Late([x', y'], BucketIndex(self, x.id)), m)
  {
    var schedule := Late([x', y'], BucketIndex(self, x.id));
    LateReads([x', y'], BucketIndex(self, x.id));
    ReadAround(self, x, y, x', y');
    Refreshes(self, x, y, x', y');
    BucketDiffers(self, [x, y], schedule, m, if m < 2 then BucketIndex(self, y.id) else BucketIndex(self, x.id));
  }

  lemma BucketDiffers(self: ID, history: seq<Contact>, schedule: seq<seq<Contact>>, m: nat, k: nat)
    requires |schedule| == BUCKETS && m <= |Flatten(schedule)| && k < BUCKETS
    requires Pieces(self, history, schedule)[k] != TableAt(self, history, Flatten(schedule), m)[k]
    ensures !WholeAt(self, history, schedule, m)
  {
    WholeAtIff(self, history, schedule, m);
  }

  /** Refreshes tear a snapshot too: when two known contacts of different buckets
      get new endpoints right after the first one's bucket was read, the list has
      the old endpoint of the first and the new one of the second.  The table held
      that at no moment, although the gathered IDs are those of every moment. */
  lemma RefreshTearsSnapshot(self: ID, x: Contact, y: Contact, x': Contact, y': Contact)
    requires BucketIndex(self, x.id) < BucketIndex(self, y.id) < BUCKETS && x'.id == x.id && y'.id == y.id
    requires Refreshed(x, x') != x && Refreshed(y, y') != y
    ensures var schedule := Late([x', y'], BucketIndex(self, x.id));
            && Atomic(self, [x, y], schedule)
            && !Whole(self, [x, y], schedule)
            && x in Flatten(Pieces(self, [x, y], schedule))
            && Refreshed(y, y') in Flatten(Pieces(self, [x, y], schedule))
  {
    RefreshKeepsIds(self, x, y, x', y');
    ReadAround(self, x, y, x', y');
    InList(Pieces(self, [x, y], Late([x', y'], BucketIndex(self, x.id))), BucketIndex(self, x.id), x);
    InList(Pieces(self, [x, y], Late([x', y'], BucketIndex(self, x.id))), BucketIndex(self, y.id), Refreshed(y, y'));
    NeverWhole(self, x, y, x', y');
  }

  lemma InList(pieces: seq<seq<Contact>>, k: nat, c: Contact)
    requires k < |pieces| && pieces[k] == [c]
    ensures c in Flatten(pieces)
  {
    FlattenMember(pieces, c);
  }

  lemma NeverWhole(self: ID, x: Contact, y: Contact, x': Contact, y': Contact)
    requires BucketIndex(self, x.id) < BucketIndex(self, y.id) < BUCKETS && x'.id == x.id && y'.id == y.id
    requires Refreshed(x, x') != x && Refreshed(y, y') != y
    ensures !Whole(self, [x, y], Late([x', y'], BucketIndex(self, x.id)))
  {
    LateReads([x', y'], BucketIndex(self, x.id));
    forall m | 0 <= m <= 2 ensures !WholeAt(self, [x, y], Late([x', y'], BucketIndex(self, x.id)), m) {
      NeverRefreshedSo(self, x, y, x', y', m);
    }
  }

  /** The bucket of a contact that is moved and moved back. */
  lemma MovedBucket(self: ID, x: Contact, x': Contact, y: Contact)
    requires BucketIndex(self, x.id) < BucketIndex(self, y.id) < BUCKETS && x'.id == x.id
    requires x'.endpoint != x.endpoint && x'.publicEndpoint == x.publicEndpoint
    ensures var k, landed := BucketIndex(self, x.id), [x', x, y];
            && TableAt(self, [x], landed, 0)[k] == [x] == TableAt(self, [x], landed, 3)[k]
            && TableAt(self, [x], landed, 1)[k] == [Refreshed(x, x')]
  {
    var k := BucketIndex(self, x.id);
    assert [x] + [x', x, y][..0] == [x];
    FirstTwo(self, x, y);
    OneContact(x, x');
    OneContact(Refreshed(x, x'), x);
    BucketNext(self, [x], [x', x, y], 0, k);
    BucketNext(self, [x], [x', x, y], 1, k);
    BucketNext(self, [x], [x', x, y], 2, k);
  }

  /** The other buckets meanwhile: only that of y changes, at the end. */
  lemma OtherBucket(self: ID, x: Contact, x': Contact, y: Contact, k: nat)
    requires x'.id == x.id && k < BUCKETS && k != BucketIndex(self, x.id)
    ensures var b, landed := TableAt(self, [x], [x', x, y], 0)[k], [x', x, y];
            && TableAt(self, [x], landed, 2)[k] == b
            && TableAt(self, [x], landed, 3)[k] == if k == BucketIndex(self, y.id) then InsertBucket(b, y) else b
  {
    BucketNext(self, [x], [x', x, y], 0, k);
    BucketNext(self, [x], [x', x, y], 1, k);
    BucketNext(self, [x], [x', x, y], 2, k);
  }

  lemma AdmittedBucket(self: ID, x: Contact, x': Contact, y: Contact)
    requires BucketIndex(self, x.id) < BucketIndex(self, y.id) < BUCKETS && x'.id == x.id
    ensures var k := BucketIndex(self, y.id);
            TableAt(self, [x], [x', x, y], 2)[k] == [] && TableAt(self, [x], [x', x, y], 3)[k] == [y]
  {
    OtherBucket(self, x, x', y, BucketIndex(self, y.id));
    assert [x] + [x', x, y][..0] == [x];
    FirstTwo(self, x, y);
    OneContact(y, y);
  }

  lemma ReadAsReturned(self: ID, x: Contact, x': Contact, y: Contact, k: nat)
    requires BucketIndex(self, x.id) < BucketIndex(self, y.id) < BUCKETS && x'.id == x.id && k < BUCKETS
    requires x'.endpoint != x.endpoint && x'.publicEndpoint == x.publicEndpoint
    ensures Pieces(self, [x], Late([x', x, y], BucketIndex(self, x.id)))[k] == TableAt(self, [x], [x', x, y], 3)[k]
  {
    LateReads([x', x, y], BucketIndex(self, x.id));
    PieceAt(self, [x], Late([x', x, y], BucketIndex(self, x.id)), k);
    if k == BucketIndex(self, x.id) {
      MovedBucket(self, x, x', y);
    } else {
      OtherBucket(self, x, x', y, k);
    }
  }

  lemma ReturnMissed(self: ID, x: Contact, x': Contact, y: Contact)
    requires BucketIndex(self, x.id) < BucketIndex(self, y.id) < BUCKETS && x'.id == x.id
    requires x'.endpoint != x.endpoint && x'.publicEndpoint == x.publicEndpoint
    ensures !SeenChangesFirst(self, [x], Late([x', x, y], BucketIndex(self, x.id)))
  {
    var schedule := Late([x', x, y], BucketIndex(self, x.id));
    LateReads([x', x, y], BucketIndex(self, x.id));
    MovedBucket(self, x, x', y);
    AdmittedBucket(self, x, x', y);
    assert MissedChange(self, [x], schedule, 0) && SeenChange(self, [x], schedule, 2);
  }

  /** Without the hypothesis the converse fails: a contact of a bucket already
      read moves to another endpoint and back, and then another contact is seen.
      The list is the final table although a missed change precedes a seen one. */
  lemma WholeAfterReturn(self: ID, x: Contact, x': Contact, y: Contact)
    requires BucketIndex(self, x.id) < BucketIndex(self, y.id) < BUCKETS && x'.id == x.id
    requires x'.endpoint != x.endpoint && x'.publicEndpoint == x.publicEndpoint
    ensures Whole(self, [x], Late([x', x, y], BucketIndex(self, x.id)))
    ensures !SeenChangesFirst(self, [x], Late([x', x, y], BucketIndex(self, x.id)))
  {
    var schedule := Late([x', x, y], BucketIndex(self, x.id));
    ReturnMissed(self, x, x', y);
    LateReads([x', x, y], BucketIndex(self, x.id));
    forall k | 0 <= k < BUCKETS ensures Pieces(self, [x], schedule)[k] == TableAt(self, [x], [x', x, y], 3)[k] {
      ReadAsReturned(self, x, x', y, k);
    }
    WholeAtIff(self, [x], schedule, 3);
  }
}
