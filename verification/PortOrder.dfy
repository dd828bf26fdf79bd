/** `prioritizedPorts` of cmd/wg-meshd/main.go: the order in which the blind
    scanner tries candidate UDP ports around the last known one.
 */
module PortOrder {

  const MAX_PORT: nat := 65535
  const REGION: nat := 4096

  predicate ValidPort(p: int) {
    1 <= p <= MAX_PORT
  }

  function Offset(center: int, p: int): nat {
    if p < center then center - p else p - center
  }

  /** The intended order: ports within 4096 of the centre come first, nearest
      first and the lower port first on ties; all others follow in ascending order. */
  predicate Before(center: int, p: int, q: int) {
    var d, e := Offset(center, p), Offset(center, q);
    if d <= REGION && e <= REGION then d < e || (d == e && p < q)
    else if d > REGION && e > REGION then p < q
    else d <= REGION
  }

  /** `out` are the first n valid ports in that order. */
  ghost predicate IsPriorityOrder(center: int, n: nat, out: seq<int>) {
    && |out| == n
    && (forall i :: 0 <= i < |out| ==> ValidPort(out[i]))
    && (forall i, j :: 0 <= i < j < |out| ==> Before(center, out[i], out[j]))
    && (forall p, i :: ValidPort(p) && p !in out && 0 <= i < |out| ==> Before(center, out[i], p))
  }

  function Clamp(count: int): nat {
    if count <= 0 || count > MAX_PORT then MAX_PORT else count
  }

  // ------------------------------------------------------------- the order

  /** In other words, of two ports in the list: only the second may be farther than
      4096 from the centre without the other being so too; within 4096 the first is
      nearer, or as near and lower; and beyond 4096 it is lower. */
  lemma EarlierMeans(center: int, out: seq<int>, i: nat, j: nat)
    requires i < j < |out| && IsPriorityOrder(center, |out|, out)
    ensures var d := if out[i] < center then center - out[i] else out[i] - center;
            var e := if out[j] < center then center - out[j] else out[j] - center;
            && (d > 4096 ==> e > 4096 && out[i] < out[j])
            && (e <= 4096 ==> d < e || (d == e && out[i] < out[j]))
  {
    assert Before(center, out[i], out[j]);
  }

  /** The position of p in an enumeration of all candidates. */
  function Rank(center: int, p: int): int {
    var d := Offset(center, p);
    if d <= REGION then 2 * d + (if p > center then 1 else 0) else 2 * REGION + 2 + p
  }

  lemma RankIsBefore(center: int, p: int, q: int)
    requires ValidPort(p) && ValidPort(q)
    ensures Before(center, p, q) <==> Rank(center, p) < Rank(center, q)
    ensures Rank(center, p) == Rank(center, q) <==> p == q
  {
  }

  // -------------------------------------------------------------- the code

  /** Everything ranked below r has been offered: either all of it is in
      `out`, or `out` is full and whatever is missing ranks after all of it. */
  ghost predicate Offered(center: int, count: nat, out: seq<int>, r: int) {
    && |out| <= count
    && (forall i :: 0 <= i < |out| ==> ValidPort(out[i]) && Rank(center, out[i]) < r)
    && (forall i, j :: 0 <= i < j < |out| ==> Rank(center, out[i]) < Rank(center, out[j]))
    && (forall p :: ValidPort(p) && Rank(center, p) < r && p !in out ==>
          |out| == count && forall i :: 0 <= i < |out| ==> Rank(center, out[i]) < Rank(center, p))
  }

  ghost predicate Tracks(seen: array<bool>, out: seq<int>)
    reads seen
  {
    seen.Length == 65536 && forall p :: ValidPort(p) ==> (seen[p] <==> p in out)
  }

  function Added(out: seq<int>, count: nat, p: int): seq<int> {
    if ValidPort(p) && p !in out && |out| < count then out + [p] else out
  }

  method Add(seen: array<bool>, out: seq<int>, count: nat, p: int) returns (out': seq<int>)
    requires Tracks(seen, out)
    modifies seen
    ensures out' == Added(out, count, p)
    ensures Tracks(seen, out')
  {
    out' := out;
    if p >= 1 && p <= 65535 && !seen[p] && |out| < count {
      seen[p] := true;
      out' := out + [p];
    }
  }

  /** Offering the only candidate of rank r. */
  lemma OfferStep(center: int, count: nat, out: seq<int>, r: int, p: int)
    requires Offered(center, count, out, r)
    requires forall q :: ValidPort(q) && Rank(center, q) == r ==> q == p
    requires ValidPort(p) ==> Rank(center, p) <= r
    ensures Offered(center, count, Added(out, count, p), r + 1)
  {
    if ValidPort(p) && p !in out && |out| < count {
      assert Rank(center, p) == r;
      assert forall q :: ValidPort(q) && Rank(center, q) < r + 1 ==> q in out + [p];
    }
  }

  lemma OfferLower(center: int, count: nat, out: seq<int>, d: nat)
    requires d <= REGION && Offered(center, count, out, 2 * d)
    ensures Offered(center, count, Added(out, count, center - d), 2 * d + 1)
  {
    OfferStep(center, count, out, 2 * d, center - d);
  }

  lemma SkipRank(center: int, count: nat, out: seq<int>, r: int)
    requires Offered(center, count, out, r)
    requires forall q :: ValidPort(q) ==> Rank(center, q) != r
    ensures Offered(center, count, out, r + 1)
  {
  }

  lemma OfferUpper(center: int, count: nat, out: seq<int>, d: nat)
    requires 0 < d <= REGION && Offered(center, count, out, 2 * d + 1)
    ensures Offered(center, count, Added(out, count, center + d), 2 * d + 2)
  {
    OfferStep(center, count, out, 2 * d + 1, center + d);
  }

  lemma OfferRest(center: int, count: nat, out: seq<int>, p: nat)
    requires ValidPort(p) && Offered(center, count, out, 2 * REGION + 2 + p)
    ensures Offered(center, count, Added(out, count, p), 2 * REGION + 3 + p)
  {
    OfferStep(center, count, out, 2 * REGION + 2 + p, p);
  }

  function PairAdded(out: seq<int>, n: nat, center: int, d: nat): seq<int> {
    var lower := Added(out, n, center - d);
    if d == 0 then lower else Added(lower, n, center + d)
  }

  lemma OfferPair(center: int, n: nat, out: seq<int>, d: nat)
    requires d <= REGION && Offered(center, n, out, 2 * d)
    ensures Offered(center, n, PairAdded(out, n, center, d), 2 * d + 2)
  {
    OfferLower(center, n, out, d);
    if d == 0 {
      SkipRank(center, n, Added(out, n, center), 1);
    } else {
      OfferUpper(center, n, Added(out, n, center - d), d);
    }
  }

  /** One turn of the first two loops: both neighbours at distance d; at
      distance zero they are the same port. */
  method AddPair(seen: array<bool>, center: int, n: nat, out: seq<int>, d: nat) returns (out': seq<int>)
    requires Tracks(seen, out)
    modifies seen
    ensures Tracks(seen, out') && out' == PairAdded(out, n, center, d)
  {
    out' := Add(seen, out, n, center - d);
    if d != 0 {
      out' := Add(seen, out', n, center + d);
    }
  }

  /** The first two loops: distances 0..512, then 513..4096. */
  method AddNeighbours(seen: array<bool>, center: int, n: nat) returns (out: seq<int>)
    requires Tracks(seen, [])
    modifies seen
    ensures Tracks(seen, out) && Offered(center, n, out, 2 * REGION + 2)
  {
    out := [];
    for d := 0 to 513
      invariant Tracks(seen, out) && Offered(center, n, out, 2 * d)
    {
      OfferPair(center, n, out, d);
      out := AddPair(seen, center, n, out, d);
    }
    for d := 513 to 4097
      invariant Tracks(seen, out) && Offered(center, n, out, 2 * d)
    {
      OfferPair(center, n, out, d);
      out := AddPair(seen, center, n, out, d);
    }
  }

  /** The third loop: the whole region once more, which adds nothing. */
  method AddRegion(seen: array<bool>, center: int, n: nat, out: seq<int>) returns (out': seq<int>)
    requires Tracks(seen, out) && Offered(center, n, out, 2 * REGION + 2)
    modifies seen
    ensures Tracks(seen, out') && out' == out
  {
    out' := out;
    for p := center - 4096 to center + 4097
      invariant Tracks(seen, out') && out' == out
    {
      assert ValidPort(p) ==> Rank(center, p) < 2 * REGION + 2;
      out' := Add(seen, out', n, p);
    }
  }

  /** The last loop: every remaining port in ascending order. */
  method AddRest(seen: array<bool>, center: int, n: nat, out: seq<int>) returns (out': seq<int>)
    requires Tracks(seen, out) && Offered(center, n, out, 2 * REGION + 2)
    modifies seen
    ensures Tracks(seen, out') && out <= out'
    ensures Offered(center, n, out', 2 * REGION + 2 + 65536)
  {
    out' := out;
    assert Offered(center, n, out, 2 * REGION + 3);
    for p := 1 to 65536
      invariant Tracks(seen, out') && out <= out'
      invariant Offered(center, n, out', 2 * REGION + 2 + p)
    {
      OfferRest(center, n, out', p);
      out' := Add(seen, out', n, p);
    }
  }

  method PrioritizedPorts(center: int, count: int)
    returns (out: seq<int>, ghost afterNear: seq<int>, ghost afterRegion: seq<int>)
    ensures IsPriorityOrder(center, Clamp(count), out)
    ensures |out| == if 1 <= count <= 65535 then count else 65535
    ensures afterNear == afterRegion <= out
  {
    var n := count;
    if count <= 0 || count > 65535 {
      n := 65535;
    }
    var seen := new bool[65536](_ => false);
    out := AddNeighbours(seen, center, n);
    afterNear := out;
    out := AddRegion(seen, center, n, out);
    afterRegion := out;
    out := AddRest(seen, center, n, out);
    AllOffered(center, n, out);
  }

  lemma {:induction false} CoverLength(s: seq<int>, n: nat)
    requires forall p :: 1 <= p <= n ==> p in s
    ensures |s| >= n
  {
    if n > 0 {
      assert n in s;
      var k :| 0 <= k < |s| && s[k] == n;
      var rest := s[..k] + s[k + 1..];
      forall p | 1 <= p <= n - 1 ensures p in rest {
        assert p in s;
        var j :| 0 <= j < |s| && s[j] == p;
        assert if j < k then rest[j] == p else rest[j - 1] == p;
      }
      CoverLength(rest, n - 1);
    }
  }

  lemma AllOffered(center: int, count: nat, out: seq<int>)
    requires count <= MAX_PORT
    requires Offered(center, count, out, 2 * REGION + 2 + 65536)
    ensures IsPriorityOrder(center, count, out)
  {
    if |out| < count {
      CoverLength(out, MAX_PORT);
    }
    forall i, j | 0 <= i < j < |out| ensures Before(center, out[i], out[j]) {
      RankIsBefore(center, out[i], out[j]);
    }
    forall p, i | ValidPort(p) && p !in out && 0 <= i < |out| ensures Before(center, out[i], p) {
      RankIsBefore(center, out[i], p);
    }
  }

  // --------------------------------------------------- what the order gives

  /** A shorter scan tries a prefix of what a longer one tries. */
  lemma {:induction false} ShorterIsPrefix(center: int, m: nat, n: nat, out: seq<int>, longer: seq<int>)
    requires m <= n && IsPriorityOrder(center, m, out) && IsPriorityOrder(center, n, longer)
    ensures out == longer[..m]
  {
    if m > 0 {
      DropLast(center, m, out);
      ShorterIsPrefix(center, m - 1, n, out[..m - 1], longer);
      var p, q := out[m - 1], longer[m - 1];
      RankIsBefore(center, p, q);
      RankIsBefore(center, q, p);
      if p != q {
        NotNext(center, out, longer, m - 1);
        NotNext(center, longer, out, m - 1);
      }
    }
  }

  lemma DropLast(center: int, m: nat, out: seq<int>)
    requires m > 0 && IsPriorityOrder(center, m, out)
    ensures IsPriorityOrder(center, m - 1, out[..m - 1])
  {
    var front := out[..m - 1];
    assert out == front + [out[m - 1]];
  }

  /** Two orders that agree up to position i: the entry of one at i is not after that of the other. */
  lemma NotNext(center: int, a: seq<int>, b: seq<int>, i: nat)
    requires i < |a| && i < |b| && a[..i] == b[..i]
    requires IsPriorityOrder(center, |a|, a) && IsPriorityOrder(center, |b|, b)
    ensures Rank(center, b[i]) <= Rank(center, a[i])
  {
    forall k | 0 <= k < i ensures b[k] != a[i] {
      assert b[k] == b[..i][k] == a[..i][k];
      RankIsBefore(center, a[k], a[i]);
    }
    if a[i] in b {
      var j :| 0 <= j < |b| && b[j] == a[i];
      RankIsBefore(center, b[i], b[j]);
    } else {
      RankIsBefore(center, b[i], a[i]);
    }
  }

  /** At full count the scan order is a permutation of 1..65535. */
  lemma FullScanIsPermutation(center: int, out: seq<int>)
    requires IsPriorityOrder(center, MAX_PORT, out)
    ensures forall p :: multiset(out)[p] == if ValidPort(p) then 1 else 0
  {
    RanksDiffer(center, out);
    forall p ensures multiset(out)[p] == if ValidPort(p) then 1 else 0 {
      if p in out {
        AppearsOnce(out, p);
      } else if ValidPort(p) {
        DistinctLength(out + [p], MAX_PORT);
      }
    }
  }

  lemma AppearsOnce(s: seq<int>, p: int)
    requires Distinct(s) && p in s
    ensures multiset(s)[p] == 1
  {
    var k :| 0 <= k < |s| && s[k] == p;
    assert s == s[..k] + [p] + s[k + 1..];
    assert p !in s[..k] && p !in s[k + 1..];
  }

  lemma RanksDiffer(center: int, out: seq<int>)
    requires IsPriorityOrder(center, |out|, out)
    ensures Distinct(out)
  {
    forall i, j | 0 <= i < j < |out| ensures out[i] != out[j] {
      RankIsBefore(center, out[i], out[j]);
    }
  }

  ghost predicate Distinct(s: seq<int>) {
    forall i, j :: 0 <= i < j < |s| ==> s[i] != s[j]
  }

  lemma {:induction false} DistinctLength(s: seq<int>, n: nat)
    requires Distinct(s) && forall i :: 0 <= i < |s| ==> 1 <= s[i] <= n
    ensures |s| <= n
  {
    if n in s {
      var k :| 0 <= k < |s| && s[k] == n;
      DistinctLength(s[..k] + s[k + 1..], n - 1);
    } else if s != [] {
      assert 1 <= s[0] <= n;
      assert forall i :: 0 <= i < |s| ==> s[i] in s;
      DistinctLength(s, n - 1);
    }
  }
}
