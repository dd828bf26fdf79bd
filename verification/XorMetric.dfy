/** The XOR metric of pkg/dht/kademlia.go.

    A node ID is the decoded form of the 40-digit lowercase hex string that
    `NodeID` returns: exactly 20 bytes.  `xorDist` is the bytewise XOR of two
    IDs, `leadingZeros` counts its leading zero bits, and `closest` compares
    distances as byte strings.  `Value` is the big-endian number a byte string
    stands for; the lemmas relate the byte-level code to that number.
 */
module XorMetric {

  const ID_BYTES: nat := 20
  const ID_BITS: nat := 160

  type ID = s: seq<bv8> | |s| == ID_BYTES witness seq(20, _ => 0)

  // ---------------------------------------------------------------- code

  function Xor(a: seq<bv8>, b: seq<bv8>): (d: seq<bv8>)
    requires |a| == |b|
    ensures |d| == |a|
  {
    seq(|a|, i requires 0 <= i < |a| => a[i] ^ b[i])
  }

  method XorDist(a: ID, b: ID) returns (out: array<bv8>)
    ensures fresh(out)
    ensures out[..] == Xor(a, b)
  {
    out := new bv8[|a|];
    for i := 0 to |a|
      invariant forall j :: 0 <= j < i ==> out[j] == a[j] ^ b[j]
    {
      out[i] := a[i] ^ b[i];
    }
  }

  /** `bits.LeadingZeros8`, looking at the topmost `width` bits. */
  function LeadingZerosIn(b: bv8, width: nat): (n: nat)
    ensures n <= width
    decreases width
  {
    if width == 0 || b & 0x80 != 0 then 0 else 1 + LeadingZerosIn(b << 1, width - 1)
  }

  function LeadingZeros8(b: bv8): (n: nat)
    ensures n <= 8
  {
    LeadingZerosIn(b, 8)
  }

  function LeadingZeros(dist: seq<bv8>): (n: nat)
    ensures n <= 8 * |dist|
  {
    if dist == [] then 0
    else if dist[0] == 0 then 8 + LeadingZeros(dist[1..])
    else LeadingZeros8(dist[0])
  }

  method CountLeadingZeros(dist: array<bv8>) returns (n: nat)
    ensures n == LeadingZeros(dist[..])
  {
    for i := 0 to dist.Length
      invariant LeadingZeros(dist[..]) == 8 * i + LeadingZeros(dist[i..])
    {
      if dist[i] != 0 {
        return i * 8 + LeadingZeros8(dist[i]);
      }
      assert dist[i..][1..] == dist[i + 1..];
    }
    return dist.Length * 8;
  }

  /** Go's `<` on strings of equal length. */
  predicate LexLess(a: seq<bv8>, b: seq<bv8>)
    requires |a| == |b|
  {
    a != [] && (a[0] < b[0] || (a[0] == b[0] && LexLess(a[1..], b[1..])))
  }

  /** The bucket an ID belongs to, seen from `self`; 160 means `self` itself. */
  function BucketIndex(self: ID, id: ID): (i: nat)
    ensures i <= ID_BITS
  {
    LeadingZeros(Xor(self, id))
  }

  // ------------------------------------------------------- numeric meaning

  function Pow2(n: nat): (p: nat)
    ensures p > 0
  {
    if n == 0 then 1 else 2 * Pow2(n - 1)
  }

  function Value(s: seq<bv8>): nat {
    if s == [] then 0 else s[0] as int * Pow2(8 * (|s| - 1)) + Value(s[1..])
  }

  function Distance(a: ID, b: ID): nat {
    Value(Xor(a, b))
  }

  lemma {:induction false} Pow2Add(m: nat, n: nat)
    ensures Pow2(m + n) == Pow2(m) * Pow2(n)
  {
    if m > 0 {
      Pow2Add(m - 1, n);
      Pow2Double(m - 1 + n);
      Pow2Double(m - 1);
      DoubleProduct(Pow2(m - 1), Pow2(n));
    }
  }

  lemma Pow2Double(n: nat)
    ensures Pow2(n + 1) == 2 * Pow2(n)
  {
  }

  lemma DoubleProduct(a: nat, b: nat)
    ensures (2 * a) * b == 2 * (a * b)
  {
  }

  lemma {:induction false} Pow2Monotone(m: nat, n: nat)
    requires m <= n
    ensures Pow2(m) <= Pow2(n)
  {
    if m < n { Pow2Monotone(m, n - 1); }
  }

  lemma Pow2Small()
    ensures Pow2(0) == 1 && Pow2(1) == 2 && Pow2(2) == 4 && Pow2(3) == 8
    ensures Pow2(4) == 16 && Pow2(5) == 32 && Pow2(6) == 64 && Pow2(7) == 128 && Pow2(8) == 256
  {
    assert Pow2(4) == 16;
    assert Pow2(6) == 64;
  }

  lemma {:induction false} ValueBound(s: seq<bv8>)
    ensures Value(s) < Pow2(8 * |s|)
  {
    if s != [] {
      ValueBound(s[1..]);
      BytePower(8 * (|s| - 1));
      BelowByte(s[0] as int, Pow2(8 * (|s| - 1)), Value(s[1..]));
    }
  }

  lemma BytePower(n: nat)
    ensures Pow2(n + 8) == 256 * Pow2(n)
  {
    Pow2Small();
    Pow2Add(8, n);
  }

  lemma BelowByte(x: nat, p: nat, rest: nat)
    requires x < 256 && rest < p
    ensures x * p + rest < 256 * p
  {
    Scaled(x, 255, p);
  }

  lemma Scaled(x: int, y: int, p: nat)
    requires x <= y
    ensures x * p <= y * p
  {
  }

  lemma OrderAsInt(a: bv8, b: bv8)
    ensures a < b <==> a as int < b as int
  {
  }

  /** Comparing two numbers by their leading digit in base p. */
  lemma LeadingDigit(x: int, y: int, p: nat, u: nat, v: nat)
    requires u < p && v < p
    ensures x < y ==> x * p + u < y * p + v
    ensures y < x ==> y * p + v < x * p + u
  {
    if x < y {
      Scaled(x + 1, y, p);
    } else if y < x {
      Scaled(y + 1, x, p);
    }
  }

  lemma DifferentHeads(a: seq<bv8>, b: seq<bv8>)
    requires |a| == |b| > 0 && a[0] != b[0]
    ensures Value(a) != Value(b)
    ensures Value(a) < Value(b) <==> a[0] < b[0]
  {
    ValueBound(a[1..]);
    ValueBound(b[1..]);
    OrderAsInt(a[0], b[0]);
    OrderAsInt(b[0], a[0]);
    LeadingDigit(a[0] as int, b[0] as int, Pow2(8 * (|a| - 1)), Value(a[1..]), Value(b[1..]));
  }

  lemma {:induction false} LexLessIsNumericOrder(a: seq<bv8>, b: seq<bv8>)
    requires |a| == |b|
    ensures LexLess(a, b) <==> Value(a) < Value(b)
    ensures a == b <==> Value(a) == Value(b)
  {
    if a != [] {
      if a[0] != b[0] {
        DifferentHeads(a, b);
      } else {
        LexLessIsNumericOrder(a[1..], b[1..]);
        assert a == [a[0]] + a[1..] && b == [b[0]] + b[1..];
      }
    }
  }

  lemma ShiftDoubles(b: bv8)
    ensures b & 0x80 != 0 <==> b as int >= 128
    ensures b as int < 128 ==> (b << 1) as int == 2 * b as int
  {
  }

  lemma {:induction false} LeadingZerosInRange(b: bv8, width: nat)
    requires width <= 8
    ensures LeadingZerosIn(b, width) == width ==> b as int < Pow2(8 - width)
    ensures LeadingZerosIn(b, width) < width ==>
              var z := LeadingZerosIn(b, width); Pow2(7 - z) <= b as int < Pow2(8 - z)
    decreases width
  {
    ShiftDoubles(b);
    Pow2Small();
    if width > 0 && b & 0x80 == 0 {
      LeadingZerosInRange(b << 1, width - 1);
    }
  }

  lemma LeadingZeros8Range(b: bv8)
    ensures LeadingZeros8(b) == 8 <==> b == 0
    ensures b != 0 ==> LeadingZeros8(b) <= 7 && Pow2(7 - LeadingZeros8(b)) <= b as int < Pow2(8 - LeadingZeros8(b))
  {
    LeadingZerosInRange(b, 8);
    OrderAsInt(0, b);
  }

  /** The leading-zero count fixes the power-of-two range of the value. */
  lemma {:induction false} LeadingZerosRange(d: seq<bv8>)
    ensures LeadingZeros(d) == 8 * |d| <==> Value(d) == 0
    ensures LeadingZeros(d) < 8 * |d| ==>
              Pow2(8 * |d| - 1 - LeadingZeros(d)) <= Value(d) < Pow2(8 * |d| - LeadingZeros(d))
  {
    if d != [] {
      if d[0] == 0 {
        LeadingZerosRange(d[1..]);
        assert Value(d) == Value(d[1..]);
      } else {
        NonzeroHeadRange(d);
      }
    }
  }

  lemma NonzeroHeadRange(d: seq<bv8>)
    requires d != [] && d[0] != 0
    ensures LeadingZeros(d) == LeadingZeros8(d[0]) <= 7
    ensures 0 < Pow2(8 * |d| - 1 - LeadingZeros(d)) <= Value(d) < Pow2(8 * |d| - LeadingZeros(d))
  {
    var z, n := LeadingZeros8(d[0]), 8 * (|d| - 1);
    LeadingZeros8Range(d[0]);
    ValueBound(d[1..]);
    LeadingByteRange(d[0] as int, z, n, Value(d[1..]));
    assert 8 * |d| - 1 - z == n + 7 - z && 8 * |d| - z == n + 8 - z;
  }

  lemma LeadingByteRange(x: nat, k: nat, n: nat, rest: nat)
    requires k <= 7 && Pow2(7 - k) <= x < Pow2(8 - k)
    requires rest < Pow2(n)
    ensures 0 < Pow2(n + 7 - k) <= x * Pow2(n) + rest < Pow2(n + 8 - k)
  {
    Pow2Add(7 - k, n);
    Pow2Add(8 - k, n);
    var p := Pow2(n);
    Scaled(Pow2(7 - k), x, p);
    Scaled(x + 1, Pow2(8 - k), p);
    assert (x + 1) * p == x * p + p;
  }

  /** `leadingZeros(xorDist(a, b)) = i` says exactly that the distance lies in
      [2^(159-i), 2^(160-i)). */
  lemma BucketIsDistanceRange(a: ID, b: ID, i: nat)
    requires i < ID_BITS
    ensures BucketIndex(a, b) == i <==> Pow2(159 - i) <= Distance(a, b) < Pow2(160 - i)
  {
    LeadingZerosRange(Xor(a, b));
    RangesDisjoint(160, BucketIndex(a, b), i, Distance(a, b));
  }

  lemma RangesDisjoint(w: nat, z: nat, i: nat, v: nat)
    requires z <= w && i < w
    requires z == w ==> v == 0
    requires z < w ==> Pow2(w - 1 - z) <= v < Pow2(w - z)
    ensures z == i <==> Pow2(w - 1 - i) <= v < Pow2(w - i)
  {
    if z < i {
      Pow2Monotone(w - i, w - 1 - z);
    } else if i < z < w {
      Pow2Monotone(w - z, w - 1 - i);
    }
  }

  lemma BucketOfSelf(a: ID, b: ID)
    ensures BucketIndex(a, b) == ID_BITS <==> a == b
    ensures Distance(a, b) == 0 <==> a == b
  {
    LeadingZerosRange(Xor(a, b));
    var zero: seq<bv8> := seq(|a|, _ => 0);
    assert Value(zero) == 0 by { ValueOfZeros(zero); }
    LexLessIsNumericOrder(Xor(a, b), zero);
    assert forall i :: 0 <= i < |a| ==> (Xor(a, b)[i] == 0 <==> a[i] == b[i]) by {
      forall i | 0 <= i < |a| ensures Xor(a, b)[i] == 0 <==> a[i] == b[i] {
        XorIsZero(a[i], b[i]);
      }
    }
    assert Xor(a, b) == zero <==> a == b;
  }

  lemma {:induction false} ValueOfZeros(s: seq<bv8>)
    requires forall i :: 0 <= i < |s| ==> s[i] == 0
    ensures Value(s) == 0
  {
    if s != [] { ValueOfZeros(s[1..]); }
  }

  // ------------------------------------------------------------ the metric

  lemma XorIsZero(a: bv8, b: bv8)
    ensures a ^ b == 0 <==> a == b
  {
  }

  lemma XorInvolutive(a: bv8, b: bv8)
    ensures a ^ (a ^ b) == b
  {
  }

  lemma XorVia(s: bv8, a: bv8, b: bv8)
    ensures a ^ b == (s ^ a) ^ (s ^ b)
    ensures a ^ b == (a ^ s) ^ (s ^ b)
  {
  }

  lemma XorCommutes(a: bv8, b: bv8)
    ensures a ^ b == b ^ a
  {
  }

  lemma DistanceSymmetric(a: ID, b: ID)
    ensures Xor(a, b) == Xor(b, a)
    ensures Distance(a, b) == Distance(b, a)
  {
    forall i | 0 <= i < |a| ensures Xor(a, b)[i] == Xor(b, a)[i] {
      XorCommutes(a[i], b[i]);
    }
    assert Xor(a, b) == Xor(b, a);
  }

  function Bit(x: bv8, mask: bv8): (r: nat)
    ensures r <= 1
  {
    if x & mask == 0 then 0 else 1
  }

  lemma AsBits(x: bv8)
    ensures x as int == 128 * Bit(x, 128) + 64 * Bit(x, 64) + 32 * Bit(x, 32) + 16 * Bit(x, 16)
                        + 8 * Bit(x, 8) + 4 * Bit(x, 4) + 2 * Bit(x, 2) + Bit(x, 1)
  {
  }

  lemma XorBit(x: bv8, y: bv8, mask: bv8)
    requires mask in {1, 2, 4, 8, 16, 32, 64, 128}
    ensures Bit(x ^ y, mask) <= Bit(x, mask) + Bit(y, mask)
  {
  }

  lemma XorAtMostSum(x: bv8, y: bv8)
    ensures (x ^ y) as int <= x as int + y as int
  {
    AsBits(x); AsBits(y); AsBits(x ^ y);
    XorBit(x, y, 1); XorBit(x, y, 2); XorBit(x, y, 4); XorBit(x, y, 8);
    XorBit(x, y, 16); XorBit(x, y, 32); XorBit(x, y, 64); XorBit(x, y, 128);
  }

  lemma {:induction false} ValueSubadditive(x: seq<bv8>, y: seq<bv8>)
    requires |x| == |y|
    ensures Value(Xor(x, y)) <= Value(x) + Value(y)
  {
    if x != [] {
      assert Xor(x, y)[1..] == Xor(x[1..], y[1..]);
      ValueSubadditive(x[1..], y[1..]);
      XorAtMostSum(x[0], y[0]);
      ValueSum(x, y, Xor(x, y));
    }
  }

  lemma ValueSum(x: seq<bv8>, y: seq<bv8>, z: seq<bv8>)
    requires |x| == |y| == |z| > 0
    requires z[0] as int <= x[0] as int + y[0] as int && Value(z[1..]) <= Value(x[1..]) + Value(y[1..])
    ensures Value(z) <= Value(x) + Value(y)
  {
    var p := Pow2(8 * (|x| - 1));
    ValueHead(x, p);
    ValueHead(y, p);
    ValueHead(z, p);
    SumOfDigits(x[0] as int, y[0] as int, z[0] as int, p, Value(x[1..]), Value(y[1..]), Value(z[1..]));
  }

  lemma ValueHead(s: seq<bv8>, p: nat)
    requires s != [] && p == Pow2(8 * (|s| - 1))
    ensures Value(s) == s[0] as int * p + Value(s[1..])
  {
  }

  lemma SumOfDigits(a: nat, b: nat, c: nat, p: nat, u: nat, v: nat, w: nat)
    requires c <= a + b && w <= u + v
    ensures c * p + w <= (a * p + u) + (b * p + v)
  {
    Scaled(c, a + b, p);
    assert (a + b) * p == a * p + b * p;
  }

  lemma DistanceTriangle(a: ID, b: ID, c: ID)
    ensures Distance(a, c) <= Distance(a, b) + Distance(b, c)
  {
    forall i | 0 <= i < |a| ensures Xor(a, c)[i] == Xor(Xor(a, b), Xor(b, c))[i] {
      XorVia(b[i], a[i], c[i]);
    }
    assert Xor(a, c) == Xor(Xor(a, b), Xor(b, c));
    ValueSubadditive(Xor(a, b), Xor(b, c));
  }

  /** Unidirectionality: from one point, a distance is reached by one ID only. */
  lemma DistanceInjective(t: ID, a: ID, b: ID)
    ensures Distance(t, a) == Distance(t, b) <==> a == b
    ensures LexLess(Xor(t, a), Xor(t, b)) <==> Distance(t, a) < Distance(t, b)
  {
    LexLessIsNumericOrder(Xor(t, a), Xor(t, b));
    if Xor(t, a) == Xor(t, b) {
      forall i | 0 <= i < |a| ensures a[i] == b[i] {
        assert Xor(t, a)[i] == Xor(t, b)[i];
        XorInvolutive(t[i], a[i]);
        XorInvolutive(t[i], b[i]);
      }
    }
  }

  // ------------------------------------------- buckets seen from elsewhere

  lemma XorTopBit(x: bv8, y: bv8)
    ensures (x ^ y) << 1 == (x << 1) ^ (y << 1)
    ensures (x ^ y) & 0x80 == 0 <==> (x & 0x80 == 0 <==> y & 0x80 == 0)
  {
  }

  /** How the leading-zero counts m and n of two w-bit strings bound the count
      d of their XOR. */
  predicate Ultrametric(m: nat, n: nat, d: nat, w: nat) {
    && d <= w
    && (m < n ==> d == m)
    && (n < m ==> d == n)
    && (m == n ==> d >= m)
    && (m == n < w ==> d > m)
  }

  lemma {:induction false} LeadingZerosInXor(x: bv8, y: bv8, width: nat)
    ensures Ultrametric(LeadingZerosIn(x, width), LeadingZerosIn(y, width), LeadingZerosIn(x ^ y, width), width)
    decreases width
  {
    if width > 0 {
      XorTopBit(x, y);
      LeadingZerosInStep(x, width);
      LeadingZerosInStep(y, width);
      LeadingZerosInStep(x ^ y, width);
      if x & 0x80 == 0 && y & 0x80 == 0 {
        LeadingZerosInXor(x << 1, y << 1, width - 1);
      }
    }
  }

  lemma LeadingZerosInStep(b: bv8, width: nat)
    requires width > 0
    ensures LeadingZerosIn(b, width) == if b & 0x80 != 0 then 0 else 1 + LeadingZerosIn(b << 1, width - 1)
  {
  }

  lemma {:induction false} LeadingZerosXor(x: seq<bv8>, y: seq<bv8>)
    requires |x| == |y|
    ensures Ultrametric(LeadingZeros(x), LeadingZeros(y), LeadingZeros(Xor(x, y)), 8 * |x|)
  {
    if x != [] {
      assert Xor(x, y)[1..] == Xor(x[1..], y[1..]);
      LeadingZerosXor(x[1..], y[1..]);
      LeadingZerosInXor(x[0], y[0], 8);
      LeadingZerosCons(x, y, Xor(x, y));
    }
  }

  lemma LeadingZerosCons(x: seq<bv8>, y: seq<bv8>, z: seq<bv8>)
    requires |x| == |y| == |z| > 0
    requires Ultrametric(LeadingZeros8(x[0]), LeadingZeros8(y[0]), LeadingZeros8(z[0]), 8)
    requires Ultrametric(LeadingZeros(x[1..]), LeadingZeros(y[1..]), LeadingZeros(z[1..]), 8 * (|x| - 1))
    ensures Ultrametric(LeadingZeros(x), LeadingZeros(y), LeadingZeros(z), 8 * |x|)
  {
    LeadingZerosHead(x);
    LeadingZerosHead(y);
    LeadingZerosHead(z);
    UltrametricCons(LeadingZeros8(x[0]), LeadingZeros8(y[0]), LeadingZeros8(z[0]),
                    LeadingZeros(x[1..]), LeadingZeros(y[1..]), LeadingZeros(z[1..]), 8 * (|x| - 1));
  }

  function HeadThen(head: nat, tail: nat): nat {
    if head == 8 then 8 + tail else head
  }

  lemma UltrametricCons(m: nat, n: nat, d: nat, m': nat, n': nat, d': nat, w: nat)
    requires m <= 8 && n <= 8 && m' <= w && n' <= w
    requires Ultrametric(m, n, d, 8) && Ultrametric(m', n', d', w)
    ensures Ultrametric(HeadThen(m, m'), HeadThen(n, n'), HeadThen(d, d'), 8 + w)
  {
  }

  lemma LeadingZerosHead(s: seq<bv8>)
    requires s != []
    ensures LeadingZeros(s) == HeadThen(LeadingZeros8(s[0]), LeadingZeros(s[1..]))
  {
    LeadingZeros8Range(s[0]);
  }

  /** Where the contacts of bucket i of `self` lie as seen from a target whose
      own bucket is b: outside buckets keep their index, deeper buckets all
      collapse to b, and the target's own bucket moves strictly closer. */
  lemma BucketSeenFrom(self: ID, target: ID, id: ID)
    ensures BucketIndex(self, id) < BucketIndex(self, target) ==>
              BucketIndex(target, id) == BucketIndex(self, id)
    ensures BucketIndex(self, id) > BucketIndex(self, target) ==>
              BucketIndex(target, id) == BucketIndex(self, target)
    ensures BucketIndex(self, id) == BucketIndex(self, target) < ID_BITS ==>
              BucketIndex(target, id) > BucketIndex(self, target)
  {
    forall i | 0 <= i < |self| ensures Xor(target, id)[i] == Xor(Xor(self, target), Xor(self, id))[i] {
      XorVia(self[i], target[i], id[i]);
    }
    assert Xor(target, id) == Xor(Xor(self, target), Xor(self, id));
    LeadingZerosXor(Xor(self, target), Xor(self, id));
  }

  /** A deeper bucket index, seen from one point, means a smaller distance. */
  lemma DeeperIsCloser(t: ID, a: ID, b: ID)
    requires BucketIndex(t, a) > BucketIndex(t, b)
    ensures Distance(t, a) < Distance(t, b)
  {
    var i, j := BucketIndex(t, a), BucketIndex(t, b);
    BucketIsDistanceRange(t, b, j);
    if i == ID_BITS {
      BucketOfSelf(t, a);
    } else {
      BucketIsDistanceRange(t, a, i);
      Pow2Monotone(160 - i, 159 - j);
    }
  }
}
