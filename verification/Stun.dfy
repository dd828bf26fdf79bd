/** The STUN client of pkg/nat/stun.go: `buildStunRequest` and the attribute walk
    of `parseStunResponse`, against the encoding of sections 5, 14 and 14.2 of
    RFC 8489.
 */
module Stun {
  import opened Options

  datatype StunResult = StunResult(publicIP: Option<seq<bv8>>, publicPort: nat, natType: string)

  /** Reading past the end of the datagram panics in Go. */
  datatype Outcome = Parsed(result: StunResult) | Panic

  const HEADER: nat := 20
  const UNKNOWN: StunResult := StunResult(None, 0, "unknown")

  /** byte(n), built bit by bit. */
  function ByteOf(n: nat): (b: bv8)
    requires n < 256
    ensures b as int == n
  {
    if n == 0 then 0
    else
      var half := ByteOf(n / 2);
      Doubling(half);
      if n % 2 == 0 then half << 1 else (half << 1) | 1
  }

  lemma Doubling(b: bv8)
    requires b as int < 128
    ensures (b << 1) as int == 2 * b as int
    ensures ((b << 1) | 1) as int == 2 * b as int + 1
  {
  }

  /** int(hi)<<8 | int(lo) */
  function Word(hi: bv8, lo: bv8): nat {
    hi as int * 256 + lo as int
  }

  /** n bytes at `at`, XORed with the bytes from offset 4 on: cookie, then transaction ID. */
  function Unmask(data: seq<bv8>, at: nat, n: nat): seq<bv8>
    requires n <= 16 && |data| >= HEADER && at + n <= |data|
  {
    seq(n, j requires 0 <= j < n => data[at + j] ^ data[4 + j])
  }

  /** The effect of an XOR-MAPPED-ADDRESS of at least 8 bytes at offset i. */
  function ReadMapped(data: seq<bv8>, i: nat, r: StunResult): Outcome
    requires |data| >= HEADER && i + 8 <= |data|
  {
    var port := Word(data[i + 2] ^ data[4], data[i + 3] ^ data[5]);
    if data[i + 1] == 0x01 then Parsed(StunResult(Some(Unmask(data, i + 4, 4)), port, "cone"))
    else if data[i + 1] == 0x02 then
      if i + 20 <= |data| then Parsed(StunResult(Some(Unmask(data, i + 4, 16)), port, "cone")) else Panic
    else Parsed(StunResult(r.publicIP, port, "cone"))
  }

  function AttrType(data: seq<bv8>, i: nat): nat {
    if i + 4 <= |data| then Word(data[i], data[i + 1]) else 0
  }

  function AttrLen(data: seq<bv8>, i: nat): nat {
    if i + 4 <= |data| then Word(data[i + 2], data[i + 3]) else 0
  }

  /** A datagram as the walk sees it: its size, the type and the length of the
      attribute header at an offset, and the address read at an offset. */
  datatype Reader = Reader(
    size: nat,
    kind: nat -> nat,
    len: nat -> nat,
    address: (nat, StunResult) -> Outcome)

  function ReaderOf(data: seq<bv8>): Reader
    requires |data| >= HEADER
  {
    Reader(|data|, i => AttrType(data, i), i => AttrLen(data, i),
           (i: nat, r: StunResult) => if i + 8 <= |data| then ReadMapped(data, i, r) else Panic)
  }

  datatype Turn = Stop(outcome: Outcome) | Go(next: nat, result: StunResult)

  /** One turn of the walk, at the attribute header at offset i. */
  function Visit(rd: Reader, i: nat, r: StunResult): (t: Turn)
    ensures t.Go? ==> i < t.next <= rd.size
  {
    var next := i + 4 + rd.len(i);
    if next > rd.size then Stop(Parsed(r))
    else if rd.kind(i) == 0x0020 && rd.len(i) >= 8 then
      match rd.address(i + 4, r)
      case Panic => Stop(Panic)
      case Parsed(r') => Go(next, r')
    else Go(next, r)
  }

  /** An attribute that is cut off ends the walk; one that is not an address, or too
      short for one, changes nothing; and any longer address is read. */
  lemma VisitMeans(rd: Reader, i: nat, r: StunResult)
    ensures i + 4 + rd.len(i) > rd.size ==> Visit(rd, i, r) == Stop(Parsed(r))
    ensures i + 4 + rd.len(i) <= rd.size && (rd.kind(i) != 32 || rd.len(i) < 8) ==>
              Visit(rd, i, r) == Go(i + 4 + rd.len(i), r)
    ensures i + 4 + rd.len(i) <= rd.size && rd.kind(i) == 32 && rd.len(i) >= 8 ==>
              var out := rd.address(i + 4, r);
              Visit(rd, i, r) == if out.Panic? then Stop(Panic) else Go(i + 4 + rd.len(i), out.result)
  {
  }

  /** The attribute walk from offset i on. */
  function Walk(rd: Reader, i: nat, r: StunResult): Outcome
    decreases rd.size - i
  {
    if i + 4 >= rd.size then Parsed(r)
    else match Visit(rd, i, r)
      case Stop(outcome) => outcome
      case Go(next, r') => Walk(rd, next, r')
  }

  function Parse(data: seq<bv8>): Outcome {
    if |data| < HEADER then Parsed(UNKNOWN) else Walk(ReaderOf(data), HEADER, UNKNOWN)
  }

  // ----------------------------------------------------------------- code

  method UnmaskLoop(data: seq<bv8>, at: nat, n: nat) returns (ip: seq<bv8>)
    requires n <= 16 && |data| >= HEADER && at + n <= |data|
    ensures ip == Unmask(data, at, n)
  {
    var buf := new bv8[n];
    for j := 0 to n
      invariant forall k :: 0 <= k < j ==> buf[k] == data[at + k] ^ data[4 + k]
    {
      buf[j] := data[at + j] ^ data[4 + j];
    }
    ip := buf[..];
  }

  /** `parseStunResponse`, with a Go panic as an outcome. */
  method ParseStunResponse(data: seq<bv8>) returns (out: Outcome)
    ensures out == Parse(data)
    ensures |data| < 20 ==> out == Parsed(StunResult(None, 0, "unknown"))
  {
    if |data| < 20 {
      return Parsed(UNKNOWN);
    }
    var result := UNKNOWN;
    var i := 20;
    while i + 4 < |data|
      invariant 20 <= i <= |data|
      invariant Walk(ReaderOf(data), i, result) == Parse(data)
    {
      var turn := VisitAttribute(data, i, result);
      match turn {
        case Stop(outcome) => return outcome;
        case Go(next, updated) => i, result := next, updated;
      }
    }
    return Parsed(result);
  }

  /** The loop body. */
  method VisitAttribute(data: seq<bv8>, start: nat, result: StunResult) returns (turn: Turn)
    requires HEADER <= |data| && start + 4 < |data|
    ensures turn == Visit(ReaderOf(data), start, result)
  {
    var i := start;
    var attrType := Word(data[i], data[i + 1]);
    var attrLen := Word(data[i + 2], data[i + 3]);
    i := i + 4;
    if i + attrLen > |data| {
      return Stop(Parsed(result));
    }
    turn := Go(i + attrLen, result);
    if attrType == 0x0020 {
      if attrLen >= 8 {
        var out := ReadAddress(data, i, result);
        turn := if out.Panic? then Stop(Panic) else Go(i + attrLen, out.result);
      }
    }
  }

  /** The branch for an XOR-MAPPED-ADDRESS of at least 8 bytes. */
  method ReadAddress(data: seq<bv8>, i: nat, before: StunResult) returns (out: Outcome)
    requires |data| >= HEADER && i + 8 <= |data|
    ensures out == ReadMapped(data, i, before)
    ensures out.Panic? <==> data[i + 1] == 0x02 && i + 20 > |data|
    ensures out.Parsed? ==>
              && out.result.natType == "cone"
              && out.result.publicPort == (data[i + 2] ^ data[4]) as int * 256 + (data[i + 3] ^ data[5]) as int
              && (data[i + 1] != 0x01 && data[i + 1] != 0x02 ==> out.result.publicIP == before.publicIP)
  {
    var result := before;
    var family := data[i + 1];
    var port := Word(data[i + 2] ^ data[4], data[i + 3] ^ data[5]);
    result := result.(publicPort := port);
    if family == 0x01 {
      var ip := UnmaskLoop(data, i + 4, 4);
      result := result.(publicIP := Some(ip));
    } else if family == 0x02 {
      if i + 20 > |data| {
        return Panic;
      }
      var ip := UnmaskLoop(data, i + 4, 16);
      result := result.(publicIP := Some(ip));
    }
    result := result.(natType := "cone");
    return Parsed(result);
  }

  method BuildStunRequest() returns (msg: array<bv8>)
    ensures fresh(msg) && msg.Length == HEADER
    ensures msg[..8] == [0x00, 0x01, 0x00, 0x00, 0x21, 0x12, 0xA4, 0x42]
    ensures forall i :: 8 <= i < 20 ==> msg[i] as int == (i * 37) % 256
  {
    msg := new bv8[20];
    msg[0] := 0x00;
    msg[1] := 0x01;
    msg[2] := 0x00;
    msg[3] := 0x00;
    msg[4] := 0x21;
    msg[5] := 0x12;
    msg[6] := 0xA4;
    msg[7] := 0x42;
    for i := 8 to 20
      invariant msg[..8] == [0x00, 0x01, 0x00, 0x00, 0x21, 0x12, 0xA4, 0x42]
      invariant forall k :: 8 <= k < i ==> msg[k] as int == (k * 37) % 256
    {
      msg[i] := ByteOf((i * 37) % 256);
    }
  }

  // ------------------------------------------------------------- encoding

  datatype Attr =
    | Mapped4(port: nat, ip: seq<bv8>)
    | Mapped6(port: nat, ip: seq<bv8>)
    | Other(kind: nat, value: seq<bv8>)

  predicate WellFormed(a: Attr) {
    match a
    case Mapped4(port, ip) => port < 65536 && |ip| == 4
    case Mapped6(port, ip) => port < 65536 && |ip| == 16
    case Other(kind, value) => kind < 65536 && kind != 0x0020 && |value| < 65536
  }

  function Hi(n: nat): bv8 requires n < 65536 { ByteOf(n / 256) }
  function Lo(n: nat): bv8 requires n < 65536 { ByteOf(n % 256) }

  function Mask(h: seq<bv8>, ip: seq<bv8>): seq<bv8>
    requires |h| == HEADER && |ip| <= 16
  {
    seq(|ip|, j requires 0 <= j < |ip| => ip[j] ^ h[4 + j])
  }

  function MappedValue(h: seq<bv8>, family: bv8, port: nat, ip: seq<bv8>): seq<bv8>
    requires |h| == HEADER && port < 65536 && |ip| <= 16
  {
    [0x00, family, Hi(port) ^ h[4], Lo(port) ^ h[5]] + Mask(h, ip)
  }

  function Kind(a: Attr): nat {
    if a.Other? then a.kind else 0x0020
  }

  function Len(a: Attr): nat {
    match a
    case Mapped4(_, _) => 8
    case Mapped6(_, _) => 20
    case Other(_, value) => |value|
  }

  function ValueOf(h: seq<bv8>, a: Attr): (v: seq<bv8>)
    requires |h| == HEADER && WellFormed(a)
    ensures |v| == Len(a) < 65536
  {
    match a
    case Mapped4(port, ip) => MappedValue(h, 0x01, port, ip)
    case Mapped6(port, ip) => MappedValue(h, 0x02, port, ip)
    case Other(_, value) => value
  }

  /** Values are padded with zero bytes to a multiple of four. */
  function Padding(n: nat): (p: nat)
    ensures p < 4 && (p == 0 <==> n % 4 == 0)
  {
    if n % 4 == 0 then 0 else 4 - n % 4
  }

  function EncodeAttr(h: seq<bv8>, a: Attr): seq<bv8>
    requires |h| == HEADER && WellFormed(a)
  {
    Head(Kind(a), Len(a)) + (ValueOf(h, a) + Zeros(Padding(Len(a))))
  }

  function Head(kind: nat, n: nat): (s: seq<bv8>)
    requires kind < 65536 && n < 65536
    ensures |s| == 4
  {
    [Hi(kind), Lo(kind), Hi(n), Lo(n)]
  }

  function Zeros(n: nat): (s: seq<bv8>)
    ensures |s| == n
  {
    seq(n, _ => 0)
  }

  predicate AllWellFormed(attrs: seq<Attr>) {
    forall k :: 0 <= k < |attrs| ==> WellFormed(attrs[k])
  }

  function Concat(pieces: seq<seq<bv8>>): seq<bv8> {
    if pieces == [] then [] else pieces[0] + Concat(pieces[1..])
  }

  function EncodeEach(h: seq<bv8>, attrs: seq<Attr>): (p: seq<seq<bv8>>)
    requires |h| == HEADER && AllWellFormed(attrs)
    ensures |p| == |attrs|
  {
    seq(|attrs|, k requires 0 <= k < |attrs| => EncodeAttr(h, attrs[k]))
  }

  /** The attributes of a response, one after the other. */
  function Encode(h: seq<bv8>, attrs: seq<Attr>): seq<bv8>
    requires |h| == HEADER && AllWellFormed(attrs)
  {
    Concat(EncodeEach(h, attrs))
  }

  /** What a decoder should learn from a list of attributes: the last address wins. */
  function Learn(attrs: seq<Attr>, r: StunResult): StunResult {
    if attrs == [] then r else Learn(attrs[1..], LearnOne(attrs[0], r))
  }

  function LearnOne(a: Attr, r: StunResult): StunResult {
    if a.Other? then r else StunResult(Some(a.ip), a.port, "cone")
  }

  /** No attribute but the last needs padding. */
  predicate Aligned(attrs: seq<Attr>) {
    |attrs| <= 1 || (Len(attrs[0]) % 4 == 0 && Aligned(attrs[1..]))
  }

  // ----------------------------------------------------------- round trip

  lemma WordRoundTrip(n: nat)
    requires n < 65536
    ensures Word(Hi(n), Lo(n)) == n
  {
  }

  lemma UnmaskByte(x: bv8, key: bv8)
    ensures (x ^ key) ^ key == x
  {
  }

  /** Reading a part of the datagram back. */
  lemma PartAt(data: seq<bv8>, i: nat, part: seq<bv8>, rest: seq<bv8>)
    requires i <= |data| && data[i..] == part + rest
    ensures i + |part| <= |data|
    ensures data[i..i + |part|] == part && data[i + |part|..] == rest
    ensures forall k :: 0 <= k < |part| ==> data[i + k] == part[k]
  {
    var s := data[i..];
    assert forall k :: 0 <= k < |s| ==> data[i + k] == s[k];
    assert s[..|part|] == part && s[|part|..] == rest;
    assert data[i..i + |part|] == s[..|part|] && data[i + |part|..] == s[|part|..];
  }

  /** Attribute a at offset i reads back: header, value, and what follows. */
  lemma HeaderReads(data: seq<bv8>, h: seq<bv8>, a: Attr, i: nat, rest: seq<bv8>)
    requires |h| == HEADER && WellFormed(a) && i <= |data| && data[i..] == EncodeAttr(h, a) + rest
    ensures i + 4 + Len(a) <= |data|
    ensures AttrType(data, i) == Kind(a) && AttrLen(data, i) == Len(a)
    ensures data[i + 4..i + 4 + Len(a)] == ValueOf(h, a)
    ensures data[i + 4 + Len(a)..] == Zeros(Padding(Len(a))) + rest
  {
    ThreeParts(data, i, Head(Kind(a), Len(a)), ValueOf(h, a), Zeros(Padding(Len(a))), rest);
    HeadReads(data, i, Kind(a), Len(a));
  }

  lemma ThreeParts(data: seq<bv8>, i: nat, head: seq<bv8>, v: seq<bv8>, pad: seq<bv8>, rest: seq<bv8>)
    requires i <= |data| && data[i..] == (head + (v + pad)) + rest
    ensures i + |head| + |v| <= |data|
    ensures data[i..i + |head|] == head && data[i + |head|..i + |head| + |v|] == v
    ensures data[i + |head| + |v|..] == pad + rest
  {
    assert (head + (v + pad)) + rest == head + (v + (pad + rest));
    PartAt(data, i, head, v + (pad + rest));
    PartAt(data, i + |head|, v, pad + rest);
  }

  lemma HeadReads(data: seq<bv8>, i: nat, kind: nat, n: nat)
    requires kind < 65536 && n < 65536 && i + 4 <= |data|
    requires data[i..i + 4] == Head(kind, n)
    ensures AttrType(data, i) == kind && AttrLen(data, i) == n
  {
    var d := data[i..i + 4];
    assert data[i] == d[0] && data[i + 1] == d[1] && data[i + 2] == d[2] && data[i + 3] == d[3];
    WordRoundTrip(kind);
    WordRoundTrip(n);
  }

  /** A mapped address at offset i reads back whatever the header's cookie and ID are. */
  lemma MappedReads(data: seq<bv8>, h: seq<bv8>, a: Attr, i: nat, r: StunResult)
    requires |h| == HEADER && WellFormed(a) && !a.Other? && HEADER <= |data| && data[..HEADER] == h
    requires i + Len(a) <= |data| && data[i..i + Len(a)] == ValueOf(h, a)
    ensures ReadMapped(data, i, r) == Parsed(StunResult(Some(a.ip), a.port, "cone"))
  {
    var family: bv8 := if a.Mapped4? then 0x01 else 0x02;
    ValueReads(data, h, family, a.port, a.ip, i);
    IpReads(data, h, a.ip, i + 4);
  }

  lemma ValueReads(data: seq<bv8>, h: seq<bv8>, family: bv8, port: nat, ip: seq<bv8>, i: nat)
    requires |h| == HEADER && port < 65536 && |ip| <= 16 && HEADER <= |data| && data[..HEADER] == h
    requires i + 4 + |ip| <= |data| && data[i..i + 4 + |ip|] == MappedValue(h, family, port, ip)
    ensures data[i + 1] == family && data[i + 4..i + 4 + |ip|] == Mask(h, ip)
    ensures Word(data[i + 2] ^ data[4], data[i + 3] ^ data[5]) == port
  {
    var n := i + 4 + |ip|;
    assert data[i + 4..n] == data[i..n][4..];
    SliceAt(data, i, n, 1);
    SliceAt(data, i, n, 2);
    SliceAt(data, i, n, 3);
    SliceAt(data, 0, HEADER, 4);
    SliceAt(data, 0, HEADER, 5);
    PortReads(port, h[4], h[5]);
  }

  lemma PortReads(port: nat, k: bv8, l: bv8)
    requires port < 65536
    ensures Word((Hi(port) ^ k) ^ k, (Lo(port) ^ l) ^ l) == port
  {
    UnmaskByte(Hi(port), k);
    UnmaskByte(Lo(port), l);
    WordRoundTrip(port);
  }

  lemma IpReads(data: seq<bv8>, h: seq<bv8>, ip: seq<bv8>, at: nat)
    requires |h| == HEADER && |ip| <= 16 && HEADER <= |data| && at + |ip| <= |data|
    requires data[..HEADER] == h && data[at..at + |ip|] == Mask(h, ip)
    ensures Unmask(data, at, |ip|) == ip
  {
    forall j | 0 <= j < |ip| ensures Unmask(data, at, |ip|)[j] == ip[j] {
      SliceAt(data, at, at + |ip|, j);
      SliceAt(data, 0, HEADER, 4 + j);
      UnmaskByte(ip[j], h[4 + j]);
    }
  }

  lemma SliceAt(data: seq<bv8>, lo: nat, hi: nat, j: nat)
    requires lo <= hi <= |data| && lo + j < hi
    ensures data[lo..hi][j] == data[lo + j]
  {
  }

  /** The reader sees attribute a at offset i. */
  ghost predicate Shows(rd: Reader, i: nat, a: Attr) {
    && rd.kind(i) == Kind(a) && rd.len(i) == Len(a)
    && (!a.Other? ==> forall r :: rd.address(i + 4, r) == Parsed(LearnOne(a, r)))
  }

  /** The datagram from offset i on is laid out like these attributes, each
      followed by its padding. */
  ghost predicate Laid(rd: Reader, i: nat, attrs: seq<Attr>)
    decreases |attrs|
  {
    if attrs == [] then i == rd.size
    else Shows(rd, i, attrs[0]) && Laid(rd, i + 4 + Len(attrs[0]) + Padding(Len(attrs[0])), attrs[1..])
  }

  lemma EncodedShows(data: seq<bv8>, h: seq<bv8>, a: Attr, i: nat, rest: seq<bv8>)
    requires |h| == HEADER && WellFormed(a) && HEADER <= i <= |data| && data[..HEADER] == h
    requires data[i..] == EncodeAttr(h, a) + rest
    ensures Shows(ReaderOf(data), i, a)
  {
    HeaderReads(data, h, a, i, rest);
    if !a.Other? {
      forall r ensures ReaderOf(data).address(i + 4, r) == Parsed(LearnOne(a, r)) {
        MappedReads(data, h, a, i + 4, r);
      }
    }
  }

  /** Wherever this piece stands in the datagram, the reader sees attribute a. */
  ghost predicate Stands(data: seq<bv8>, rd: Reader, piece: seq<bv8>, a: Attr) {
    && |piece| == 4 + Len(a) + Padding(Len(a))
    && forall i: nat, rest: seq<bv8> :: HEADER <= i <= |data| && data[i..] == piece + rest ==> Shows(rd, i, a)
  }

  lemma EncodedStands(data: seq<bv8>, h: seq<bv8>, a: Attr)
    requires |h| == HEADER && WellFormed(a) && HEADER <= |data| && data[..HEADER] == h
    ensures Stands(data, ReaderOf(data), EncodeAttr(h, a), a)
  {
    forall i: nat, rest: seq<bv8> | HEADER <= i <= |data| && data[i..] == EncodeAttr(h, a) + rest
      ensures Shows(ReaderOf(data), i, a)
    {
      EncodedShows(data, h, a, i, rest);
    }
  }

  lemma {:induction false} ConcatIsLaid(data: seq<bv8>, rd: Reader, pieces: seq<seq<bv8>>, attrs: seq<Attr>, i: nat)
    requires |pieces| == |attrs| && forall k :: 0 <= k < |pieces| ==> Stands(data, rd, pieces[k], attrs[k])
    requires HEADER <= i <= |data| == rd.size && data[i..] == Concat(pieces)
    ensures Laid(rd, i, attrs)
    decreases |attrs|
  {
    if attrs != [] {
      var rest := Concat(pieces[1..]);
      assert Stands(data, rd, pieces[0], attrs[0]);
      assert data[i..] == pieces[0] + rest;
      PartAt(data, i, pieces[0], rest);
      ConcatIsLaid(data, rd, pieces[1..], attrs[1..], i + |pieces[0]|);
      LaidCons(rd, i, attrs);
    }
  }

  lemma EncodeIsLaid(data: seq<bv8>, h: seq<bv8>, attrs: seq<Attr>)
    requires |h| == HEADER && AllWellFormed(attrs) && data == h + Encode(h, attrs)
    ensures Laid(ReaderOf(data), HEADER, attrs)
  {
    var pieces := EncodeEach(h, attrs);
    assert data[..HEADER] == h && data[HEADER..] == Concat(pieces);
    forall k | 0 <= k < |pieces| ensures Stands(data, ReaderOf(data), pieces[k], attrs[k]) {
      EncodedStands(data, h, attrs[k]);
    }
    ConcatIsLaid(data, ReaderOf(data), pieces, attrs, HEADER);
  }

  lemma LaidCons(rd: Reader, i: nat, attrs: seq<Attr>)
    requires attrs != [] && Shows(rd, i, attrs[0])
    requires Laid(rd, i + 4 + Len(attrs[0]) + Padding(Len(attrs[0])), attrs[1..])
    ensures Laid(rd, i, attrs)
  {
  }

  lemma {:induction false} LaidFits(rd: Reader, i: nat, attrs: seq<Attr>)
    requires Laid(rd, i, attrs)
    ensures i <= rd.size && (attrs != [] ==> i + 4 + Len(attrs[0]) + Padding(Len(attrs[0])) <= rd.size)
    decreases |attrs|
  {
    if attrs != [] {
      LaidFits(rd, i + 4 + Len(attrs[0]) + Padding(Len(attrs[0])), attrs[1..]);
    }
  }

  /** The walk over one attribute ends in front of its padding. */
  lemma WalkAttr(rd: Reader, i: nat, a: Attr, r: StunResult)
    requires WellFormed(a) && Shows(rd, i, a) && i + 4 + Len(a) <= rd.size
    ensures Walk(rd, i, r) == Walk(rd, i + 4 + Len(a), LearnOne(a, r))
  {
    if !a.Other? {
      assert rd.address(i + 4, r) == Parsed(LearnOne(a, r));
    }
    assert Visit(rd, i, r) == Go(i + 4 + Len(a), LearnOne(a, r));
  }

  lemma {:induction false} WalkLearns(rd: Reader, i: nat, attrs: seq<Attr>, r: StunResult)
    requires AllWellFormed(attrs) && Laid(rd, i, attrs) && Aligned(attrs)
    ensures Walk(rd, i, r) == Parsed(Learn(attrs, r))
    decreases |attrs|
  {
    LaidFits(rd, i, attrs);
    if attrs != [] {
      WalkAttr(rd, i, attrs[0], r);
      if |attrs| > 1 {
        WalkLearns(rd, i + 4 + Len(attrs[0]), attrs[1..], LearnOne(attrs[0], r));
      }
    }
  }

  /** Parsing an encoded response gives the attributes' meaning, for every header
      and every list of attributes in which only the last may need padding. */
  lemma ParseInvertsEncode(h: seq<bv8>, attrs: seq<Attr>)
    requires |h| == HEADER && AllWellFormed(attrs) && Aligned(attrs)
    ensures Parse(h + Encode(h, attrs)) == Parsed(Learn(attrs, UNKNOWN))
  {
    var data := h + Encode(h, attrs);
    EncodeIsLaid(data, h, attrs);
    WalkLearns(ReaderOf(data), HEADER, attrs, UNKNOWN);
  }

  /** That meaning is the port and address of the last mapped address. */
  lemma {:induction false} LearnsLastAddress(attrs: seq<Attr>, k: nat, r: StunResult)
    requires k < |attrs| && !attrs[k].Other?
    requires forall j :: k < j < |attrs| ==> attrs[j].Other?
    ensures Learn(attrs, r) == StunResult(Some(attrs[k].ip), attrs[k].port, "cone")
  {
    var r' := LearnOne(attrs[0], r);
    if k > 0 {
      LearnsLastAddress(attrs[1..], k - 1, r');
    } else {
      LearnsNothing(attrs[1..], r');
    }
  }

  lemma {:induction false} LearnsNothing(attrs: seq<Attr>, r: StunResult)
    requires forall j :: 0 <= j < |attrs| ==> attrs[j].Other?
    ensures Learn(attrs, r) == r
  {
    if attrs != [] { LearnsNothing(attrs[1..], r); }
  }

  lemma ParseRecoversAddress(h: seq<bv8>, attrs: seq<Attr>, k: nat)
    requires |h| == HEADER && AllWellFormed(attrs) && Aligned(attrs)
    requires k < |attrs| && !attrs[k].Other? && forall j :: k < j < |attrs| ==> attrs[j].Other?
    ensures Parse(h + Encode(h, attrs)) == Parsed(StunResult(Some(attrs[k].ip), attrs[k].port, "cone"))
  {
    ParseInvertsEncode(h, attrs);
    LearnsLastAddress(attrs, k, UNKNOWN);
  }

  // ------------------------------------------------------ unskipped padding

  /** The offsets at which the walk reads an attribute header. */
  function Offsets(rd: Reader, i: nat): seq<nat>
    decreases rd.size - i
  {
    if i + 4 >= rd.size then []
    else if i + 4 + rd.len(i) > rd.size then [i]
    else [i] + Offsets(rd, i + 4 + rd.len(i))
  }

  /** The offsets at which the encoder wrote one. */
  function Boundaries(attrs: seq<Attr>, i: nat): seq<nat>
    decreases |attrs|
  {
    if attrs == [] then [] else [i] + Boundaries(attrs[1..], i + 4 + Len(attrs[0]) + Padding(Len(attrs[0])))
  }

  lemma {:induction false} OffsetsFrom(rd: Reader, i: nat)
    ensures forall k :: 0 <= k < |Offsets(rd, i)| ==> Offsets(rd, i)[k] >= i
    ensures Offsets(rd, i) != [] ==> Offsets(rd, i)[0] == i
    decreases rd.size - i
  {
    if i + 4 + rd.len(i) <= rd.size {
      OffsetsFrom(rd, i + 4 + rd.len(i));
    }
  }

  lemma {:induction false} BoundariesFrom(attrs: seq<Attr>, i: nat)
    ensures forall k :: 0 <= k < |Boundaries(attrs, i)| ==> Boundaries(attrs, i)[k] >= i
    decreases |attrs|
  {
    if attrs != [] {
      BoundariesFrom(attrs[1..], i + 4 + Len(attrs[0]) + Padding(Len(attrs[0])));
    }
  }

  ghost predicate OnlyReads(offsets: seq<nat>, boundaries: seq<nat>) {
    forall k :: 0 <= k < |offsets| ==> offsets[k] in boundaries
  }

  lemma {:induction false} OffsetsIffAligned(rd: Reader, attrs: seq<Attr>, i: nat)
    requires Laid(rd, i, attrs)
    ensures OnlyReads(Offsets(rd, i), Boundaries(attrs, i)) <==> Aligned(attrs)
    decreases |attrs|
  {
    if |attrs| == 1 {
      LaidFits(rd, i, attrs);
      LastOffsets(rd, i);
    } else if attrs != [] {
      OffsetsStep(rd, attrs, i);
      if Padding(Len(attrs[0])) == 0 {
        OffsetsIffAligned(rd, attrs[1..], i + 4 + Len(attrs[0]));
      }
    }
  }

  /** Whether the walk stays in step behind the first attribute. */
  lemma OffsetsStep(rd: Reader, attrs: seq<Attr>, i: nat)
    requires |attrs| > 1 && Laid(rd, i, attrs)
    ensures var n := Len(attrs[0]);
            OnlyReads(Offsets(rd, i), Boundaries(attrs, i)) <==>
            Padding(n) == 0 && OnlyReads(Offsets(rd, i + 4 + n), Boundaries(attrs[1..], i + 4 + n + Padding(n)))
  {
    RoomForNext(rd, attrs, i);
    StepOffsets(rd, attrs, i, Len(attrs[0]), Padding(Len(attrs[0])));
  }

  lemma StepOffsets(rd: Reader, attrs: seq<Attr>, i: nat, n: nat, pad: nat)
    requires attrs != [] && n == Len(attrs[0]) == rd.len(i) && pad == Padding(n) && i + 8 + n + pad <= rd.size
    ensures OnlyReads(Offsets(rd, i), Boundaries(attrs, i)) <==>
            pad == 0 && OnlyReads(Offsets(rd, i + 4 + n), Boundaries(attrs[1..], i + 4 + n + pad))
  {
    NextOffsets(rd, i, n);
    NextBoundaries(attrs, i, i + 4 + n + pad);
    OffsetsFrom(rd, i + 4 + n);
    BoundariesFrom(attrs[1..], i + 4 + n + pad);
    InStepNext(Offsets(rd, i + 4 + n), Boundaries(attrs[1..], i + 4 + n + pad), i, i + 4 + n, i + 4 + n + pad);
  }

  lemma NextBoundaries(attrs: seq<Attr>, i: nat, next: nat)
    requires attrs != [] && next == i + 4 + Len(attrs[0]) + Padding(Len(attrs[0]))
    ensures Boundaries(attrs, i) == [i] + Boundaries(attrs[1..], next)
  {
  }

  lemma InStepNext(offsets: seq<nat>, boundaries: seq<nat>, i: nat, read: nat, next: nat)
    requires i < read <= next && (forall k :: 0 <= k < |offsets| ==> offsets[k] >= read)
    requires forall k :: 0 <= k < |boundaries| ==> boundaries[k] >= next
    requires read < next ==> offsets != [] && offsets[0] == read
    ensures OnlyReads([i] + offsets, [i] + boundaries) <==> read == next && OnlyReads(offsets, boundaries)
  {
    if read == next {
      OneMore(offsets, boundaries, i);
    } else {
      TooEarly(offsets, boundaries, i, read);
    }
  }

  lemma RoomForNext(rd: Reader, attrs: seq<Attr>, i: nat)
    requires |attrs| > 1 && Laid(rd, i, attrs)
    ensures rd.len(i) == Len(attrs[0]) && i + 8 + Len(attrs[0]) + Padding(Len(attrs[0])) <= rd.size
  {
    LaidFits(rd, i, attrs);
    LaidFits(rd, i + 4 + Len(attrs[0]) + Padding(Len(attrs[0])), attrs[1..]);
  }

  lemma NextOffsets(rd: Reader, i: nat, n: nat)
    requires rd.len(i) == n && i + 8 + n <= rd.size
    ensures Offsets(rd, i) == [i] + Offsets(rd, i + 4 + n)
    ensures i + 8 + n < rd.size ==> Offsets(rd, i + 4 + n) != []
  {
  }

  /** After the last attribute only padding is left, too short for a header. */
  lemma LastOffsets(rd: Reader, i: nat)
    requires i + 4 + rd.len(i) <= rd.size <= i + 4 + rd.len(i) + 3
    ensures forall k :: 0 <= k < |Offsets(rd, i)| ==> Offsets(rd, i)[k] == i
  {
  }

  lemma OneMore(offsets: seq<nat>, boundaries: seq<nat>, i: nat)
    requires forall k :: 0 <= k < |offsets| ==> offsets[k] > i
    ensures OnlyReads([i] + offsets, [i] + boundaries) <==> OnlyReads(offsets, boundaries)
  {
    assert forall k :: 0 <= k < |offsets| ==> ([i] + offsets)[k + 1] == offsets[k];
  }

  /** After an attribute that needed padding the next header is read too early. */
  lemma TooEarly(offsets: seq<nat>, later: seq<nat>, i: nat, next: nat)
    requires offsets != [] && offsets[0] == next > i
    requires forall k :: 0 <= k < |later| ==> later[k] > next
    ensures !OnlyReads([i] + offsets, [i] + later)
  {
    assert ([i] + offsets)[1] == next;
    assert next !in [i] + later;
  }

  /** The parser skips no padding.  So in an encoded response it reads attribute
      headers only where the encoder wrote them, exactly when no attribute but
      the last needs padding. */
  lemma InStepIffAligned(h: seq<bv8>, attrs: seq<Attr>)
    requires |h| == HEADER && AllWellFormed(attrs)
    ensures OnlyReads(Offsets(ReaderOf(h + Encode(h, attrs)), HEADER), Boundaries(attrs, HEADER)) <==> Aligned(attrs)
  {
    var data := h + Encode(h, attrs);
    EncodeIsLaid(data, h, attrs);
    OffsetsIffAligned(ReaderOf(data), attrs, HEADER);
  }

  // ------------------------------------------- padding hides the address

  predicate AllPadless(attrs: seq<Attr>) {
    forall k :: 0 <= k < |attrs| ==> Padding(Len(attrs[k])) == 0
  }

  function Size(attrs: seq<Attr>): nat {
    if attrs == [] then 0 else 4 + Len(attrs[0]) + Padding(Len(attrs[0])) + Size(attrs[1..])
  }

  lemma StepOver(rd: Reader, i: nat, attrs: seq<Attr>, r: StunResult)
    requires attrs != [] && WellFormed(attrs[0]) && Padding(Len(attrs[0])) == 0 && Laid(rd, i, attrs)
    ensures Laid(rd, i + 4 + Len(attrs[0]), attrs[1..])
    ensures Walk(rd, i, r) == Walk(rd, i + 4 + Len(attrs[0]), LearnOne(attrs[0], r))
  {
    LaidFits(rd, i, attrs);
    WalkAttr(rd, i, attrs[0], r);
  }

  /** The walk over attributes that need no padding learns them and arrives at
      the attributes that follow. */
  lemma {:induction false} WalkOver(rd: Reader, i: nat, pre: seq<Attr>, tail: seq<Attr>, r: StunResult)
    requires AllWellFormed(pre) && AllPadless(pre) && Laid(rd, i, pre + tail)
    ensures Laid(rd, i + Size(pre), tail)
    ensures Walk(rd, i, r) == Walk(rd, i + Size(pre), Learn(pre, r))
    decreases |pre|
  {
    if pre == [] {
      assert pre + tail == tail;
    } else {
      assert (pre + tail)[0] == pre[0] && (pre + tail)[1..] == pre[1..] + tail;
      StepOver(rd, i, pre + tail, r);
      WalkOver(rd, i + 4 + Len(pre[0]), pre[1..], tail, LearnOne(pre[0], r));
    }
  }

  lemma {:induction false} ConcatTail(pieces: seq<seq<bv8>>, x: seq<bv8>, y: seq<bv8>)
    ensures Concat(pieces + [x, y]) == Concat(pieces) + (x + y)
  {
    var all := pieces + [x, y];
    if pieces == [] {
      assert all[1..] == [y] && all[1..][1..] == [];
      assert Concat([y]) == y + [];
    } else {
      assert all[1..] == pieces[1..] + [x, y];
      ConcatTail(pieces[1..], x, y);
    }
  }

  lemma {:induction false} ConcatSize(pieces: seq<seq<bv8>>, attrs: seq<Attr>)
    requires |pieces| == |attrs|
    requires forall k :: 0 <= k < |pieces| ==> |pieces[k]| == 4 + Len(attrs[k]) + Padding(Len(attrs[k]))
    ensures |Concat(pieces)| == Size(attrs)
  {
    if pieces != [] {
      ConcatSize(pieces[1..], attrs[1..]);
    }
  }

  lemma EachTail(h: seq<bv8>, pre: seq<Attr>, o: Attr, a: Attr)
    requires |h| == HEADER && AllWellFormed(pre) && WellFormed(o) && WellFormed(a)
    ensures AllWellFormed(pre + [o, a])
    ensures EncodeEach(h, pre + [o, a]) == EncodeEach(h, pre) + [EncodeAttr(h, o), EncodeAttr(h, a)]
  {
    var n, all := |pre|, pre + [o, a];
    assert all[n] == o && all[n + 1] == a;
    assert forall k :: 0 <= k < n ==> all[k] == pre[k];
  }

  lemma EachSize(h: seq<bv8>, attrs: seq<Attr>, k: nat)
    requires |h| == HEADER && AllWellFormed(attrs) && k < |attrs|
    ensures |EncodeEach(h, attrs)[k]| == 4 + Len(attrs[k]) + Padding(Len(attrs[k]))
  {
  }

  lemma DropFront(h: seq<bv8>, all: seq<bv8>, front: seq<bv8>, n: nat, tail: seq<bv8>)
    requires all == front + tail && |front| == n
    ensures |h| + n <= |h + all| && (h + all)[|h| + n..] == tail
  {
    assert h + (front + tail) == (h + front) + tail;
  }

  lemma EncodeSize(h: seq<bv8>, attrs: seq<Attr>)
    requires |h| == HEADER && AllWellFormed(attrs)
    ensures |Encode(h, attrs)| == Size(attrs)
  {
    var pieces := EncodeEach(h, attrs);
    forall k | 0 <= k < |attrs| ensures |pieces[k]| == 4 + Len(attrs[k]) + Padding(Len(attrs[k])) {
      EachSize(h, attrs, k);
    }
    ConcatSize(pieces, attrs);
  }

  lemma EncodeTail(h: seq<bv8>, pre: seq<Attr>, o: Attr, a: Attr)
    requires |h| == HEADER && AllWellFormed(pre) && WellFormed(o) && WellFormed(a)
    ensures AllWellFormed(pre + [o, a])
    ensures Encode(h, pre + [o, a]) == Encode(h, pre) + (EncodeAttr(h, o) + EncodeAttr(h, a))
  {
    EachTail(h, pre, o, a);
    ConcatTail(EncodeEach(h, pre), EncodeAttr(h, o), EncodeAttr(h, a));
  }

  /** Where the last two attributes of a response stand. */
  lemma TailBytes(h: seq<bv8>, pre: seq<Attr>, o: Attr, a: Attr)
    requires |h| == HEADER && AllWellFormed(pre) && WellFormed(o) && WellFormed(a) && AllWellFormed(pre + [o, a])
    ensures var data := h + Encode(h, pre + [o, a]);
            HEADER + Size(pre) <= |data| && data[HEADER + Size(pre)..] == EncodeAttr(h, o) + EncodeAttr(h, a)
  {
    EncodeSize(h, pre);
    EncodeTail(h, pre, o, a);
    DropFront(h, Encode(h, pre + [o, a]), Encode(h, pre), Size(pre), EncodeAttr(h, o) + EncodeAttr(h, a));
  }

  /** The first bytes of a mapped address. */
  ghost predicate StartsMapped(e: seq<bv8>, n: nat) {
    && |e| == 4 + n && n >= 8
    && e[0] as int == 0 && e[1] as int == 32 && e[2] as int == 0 && e[3] as int == n && e[4] as int == 0
  }

  lemma HeadBytes(n: nat)
    requires n < 256
    ensures var s := Head(0x0020, n);
            s[0] as int == 0 && s[1] as int == 32 && s[2] as int == 0 && s[3] as int == n
  {
  }

  lemma ValueStart(h: seq<bv8>, a: Attr)
    requires |h| == HEADER && WellFormed(a) && !a.Other?
    ensures |ValueOf(h, a)| == Len(a) && ValueOf(h, a)[0] == 0
  {
  }

  lemma MappedStart(h: seq<bv8>, a: Attr)
    requires |h| == HEADER && WellFormed(a) && !a.Other?
    ensures StartsMapped(EncodeAttr(h, a), Len(a))
  {
    HeadBytes(Len(a));
    ValueStart(h, a);
    HeadThenValue(Head(0x0020, Len(a)), ValueOf(h, a), Zeros(Padding(Len(a))));
  }

  lemma HeadThenValue(head: seq<bv8>, v: seq<bv8>, pad: seq<bv8>)
    requires |head| == 4 && |v| >= 8 && v[0] == 0 && pad == []
    requires head[0] as int == 0 && head[1] as int == 32 && head[2] as int == 0 && head[3] as int == |v|
    ensures StartsMapped(head + (v + pad), |v|)
  {
  }

  lemma ByteBehind(data: seq<bv8>, i: nat, p: nat, e: seq<bv8>, k: nat)
    requires i <= |data| && data[i..] == Zeros(p) + e && k < p + |e|
    ensures |data| == i + p + |e| && data[i + k] == if k < p then 0 else e[k - p]
  {
    assert data[i..][k] == data[i + k];
  }

  /** The lengths the walk reads behind p bytes of padding. */
  lemma MisreadLengths(data: seq<bv8>, i: nat, p: nat, e: seq<bv8>, n: nat)
    requires 1 <= p <= 3 && StartsMapped(e, n) && i <= |data| && data[i..] == Zeros(p) + e
    ensures |data| == i + p + 4 + n && AttrType(data, i) == 0
    ensures p == 1 ==> AttrLen(data, i) == 8192
    ensures p == 2 ==> AttrLen(data, i) == 32
    ensures p == 3 ==> AttrLen(data, i) == 0 && AttrLen(data, i + 4) == 256 * n
  {
    ByteBehind(data, i, p, e, 0);
    ByteBehind(data, i, p, e, 1);
    ByteBehind(data, i, p, e, 2);
    ByteBehind(data, i, p, e, 3);
    ByteBehind(data, i, p, e, 6);
    ByteBehind(data, i, p, e, 7);
  }

  /** Behind padding the walk reads a length of 8192, of 32, or of 0 and then of
      256 times the address's length.  Each of them ends it. */
  lemma Misread(data: seq<bv8>, i: nat, p: nat, e: seq<bv8>, n: nat, r: StunResult)
    requires 1 <= p <= 3 && StartsMapped(e, n) && n <= 20
    requires HEADER <= i <= |data| && data[i..] == Zeros(p) + e
    ensures Walk(ReaderOf(data), i, r) == Parsed(r)
  {
    MisreadLengths(data, i, p, e, n);
    var rd := ReaderOf(data);
    if p == 3 {
      assert Visit(rd, i, r) == Go(i + 4, r);
      assert Walk(rd, i + 4, r) == Parsed(r);
    }
  }

  /** The walk over an attribute that needs padding and the address behind it. */
  lemma WalkPadded(data: seq<bv8>, h: seq<bv8>, o: Attr, a: Attr, i: nat, r: StunResult)
    requires |h| == HEADER && HEADER <= i <= |data| && Shows(ReaderOf(data), i, o)
    requires WellFormed(o) && o.Other? && WellFormed(a) && !a.Other? && Len(o) % 4 != 0
    requires data[i..] == EncodeAttr(h, o) + EncodeAttr(h, a)
    ensures Walk(ReaderOf(data), i, r) == Parsed(r)
  {
    MappedStart(h, a);
    AfterValue(data, h, o, i, EncodeAttr(h, a));
    WalkPast(data, o, i, EncodeAttr(h, a), Len(a), r);
  }

  lemma AfterValue(data: seq<bv8>, h: seq<bv8>, o: Attr, i: nat, rest: seq<bv8>)
    requires |h| == HEADER && WellFormed(o) && i <= |data| && data[i..] == EncodeAttr(h, o) + rest
    ensures i + 4 + Len(o) <= |data| && data[i + 4 + Len(o)..] == Zeros(Padding(Len(o))) + rest
  {
    HeaderReads(data, h, o, i, rest);
  }

  lemma GoesOn(rd: Reader, i: nat, j: nat, o: Attr, r: StunResult)
    requires WellFormed(o) && o.Other? && Shows(rd, i, o) && j == i + 4 + Len(o) <= rd.size
             && Walk(rd, j, r) == Parsed(r)
    ensures Walk(rd, i, r) == Parsed(r)
  {
    WalkAttr(rd, i, o, r);
  }

  lemma WalkPast(data: seq<bv8>, o: Attr, i: nat, e: seq<bv8>, n: nat, r: StunResult)
    requires HEADER <= i && i + 4 + Len(o) <= |data| && Shows(ReaderOf(data), i, o)
    requires WellFormed(o) && o.Other? && Padding(Len(o)) >= 1 && StartsMapped(e, n) && n <= 20
    requires data[i + 4 + Len(o)..] == Zeros(Padding(Len(o))) + e
    ensures Walk(ReaderOf(data), i, r) == Parsed(r)
  {
    var j := i + 4 + Len(o);
    Misread(data, j, Padding(Len(o)), e, n, r);
    GoesOn(ReaderOf(data), i, j, o, r);
  }

  lemma ParsePadded(h: seq<bv8>, pre: seq<Attr>, o: Attr, a: Attr)
    requires |h| == HEADER && AllWellFormed(pre) && AllPadless(pre) && AllWellFormed(pre + [o, a])
    requires WellFormed(o) && o.Other? && WellFormed(a) && !a.Other? && Len(o) % 4 != 0
    ensures Parse(h + Encode(h, pre + [o, a])) == Parsed(Learn(pre, UNKNOWN))
  {
    TailBytes(h, pre, o, a);
    ArrivesBehind(h, pre, [o, a]);
    WalkPadded(h + Encode(h, pre + [o, a]), h, o, a, HEADER + Size(pre), Learn(pre, UNKNOWN));
  }

  lemma ArrivesBehind(h: seq<bv8>, pre: seq<Attr>, tail: seq<Attr>)
    requires |h| == HEADER && AllWellFormed(pre) && AllPadless(pre) && AllWellFormed(pre + tail) && tail != []
    ensures var rd := ReaderOf(h + Encode(h, pre + tail));
            && Shows(rd, HEADER + Size(pre), tail[0])
            && Walk(rd, HEADER, UNKNOWN) == Walk(rd, HEADER + Size(pre), Learn(pre, UNKNOWN))
  {
    EncodeIsLaid(h + Encode(h, pre + tail), h, pre + tail);
    ArrivesAt(ReaderOf(h + Encode(h, pre + tail)), pre, tail);
  }

  lemma ArrivesAt(rd: Reader, pre: seq<Attr>, tail: seq<Attr>)
    requires AllWellFormed(pre) && AllPadless(pre) && tail != [] && Laid(rd, HEADER, pre + tail)
    ensures Shows(rd, HEADER + Size(pre), tail[0])
    ensures Walk(rd, HEADER, UNKNOWN) == Walk(rd, HEADER + Size(pre), Learn(pre, UNKNOWN))
  {
    WalkOver(rd, HEADER, pre, tail, UNKNOWN);
  }

  lemma {:induction false} AlignedTail(pre: seq<Attr>, o: Attr, a: Attr)
    requires AllPadless(pre) && Len(o) % 4 == 0
    ensures Aligned(pre + [o, a])
  {
    if pre != [] {
      AlignedTail(pre[1..], o, a);
      assert (pre + [o, a])[1..] == pre[1..] + [o, a];
    }
  }

  /** What parsing gives when an attribute other than an address, of any length,
      precedes a final address: the address if that attribute needs no padding,
      and otherwise only what stood before it. */
  lemma ParseBehindAttribute(h: seq<bv8>, pre: seq<Attr>, o: Attr, a: Attr)
    requires |h| == HEADER && AllWellFormed(pre) && AllPadless(pre)
    requires WellFormed(o) && o.Other? && WellFormed(a) && !a.Other?
    ensures AllWellFormed(pre + [o, a])
    ensures Parse(h + Encode(h, pre + [o, a])) ==
            Parsed(if Len(o) % 4 == 0 then StunResult(Some(a.ip), a.port, "cone") else Learn(pre, UNKNOWN))
  {
    if Len(o) % 4 == 0 {
      AlignedTail(pre, o, a);
      ParseRecoversAddress(h, pre + [o, a], |pre| + 1);
    } else {
      ParsePadded(h, pre, o, a);
    }
  }

  /** The address of a response is recovered from behind an attribute exactly
      when that attribute needs no padding. */
  lemma AddressRecoveredIff(h: seq<bv8>, pre: seq<Attr>, kind: nat, v: seq<bv8>, a: Attr)
    requires |h| == HEADER && AllWellFormed(pre) && AllPadless(pre) && forall k :: 0 <= k < |pre| ==> pre[k].Other?
    requires WellFormed(Other(kind, v)) && WellFormed(a) && !a.Other?
    ensures AllWellFormed(pre + [Other(kind, v), a])
    ensures var out := Parse(h + Encode(h, pre + [Other(kind, v), a]));
            out == Parsed(StunResult(Some(a.ip), a.port, "cone")) <==> |v| % 4 == 0
  {
    ParseBehindAttribute(h, pre, Other(kind, v), a);
    LearnsNothing(pre, UNKNOWN);
  }

  // --------------------------------------- an address in front of padding

  /** Too few bytes remain for another address, so the result stays. */
  lemma {:induction false} ShortRest(rd: Reader, i: nat, r: StunResult)
    requires rd.size < i + 12
    ensures Walk(rd, i, r) == Parsed(r)
    decreases rd.size - i
  {
    if i + 4 < rd.size && i + 4 + rd.len(i) <= rd.size {
      assert Visit(rd, i, r) == Go(i + 4 + rd.len(i), r);
      ShortRest(rd, i + 4 + rd.len(i), r);
    }
  }

  lemma {:induction false} LaidSize(rd: Reader, i: nat, attrs: seq<Attr>)
    requires Laid(rd, i, attrs)
    ensures i + Size(attrs) == rd.size
    decreases |attrs|
  {
    if attrs != [] {
      LaidSize(rd, i + 4 + Len(attrs[0]) + Padding(Len(attrs[0])), attrs[1..]);
    }
  }

  lemma WalkToEnd(rd: Reader, i: nat, o: Attr, rest: seq<Attr>, r: StunResult)
    requires WellFormed(o) && o.Other? && Laid(rd, i, [o] + rest) && Size(rest) <= 8
    ensures Walk(rd, i, r) == Parsed(r)
  {
    var attrs := [o] + rest;
    assert attrs[0] == o && attrs[1..] == rest;
    LaidSize(rd, i, attrs);
    ShortRest(rd, i + 4 + Len(o), r);
    WalkAttr(rd, i, o, r);
  }

  lemma WalkKept(rd: Reader, pre: seq<Attr>, o: Attr, rest: seq<Attr>)
    requires AllWellFormed(pre) && AllPadless(pre) && WellFormed(o) && o.Other? && Size(rest) <= 8
    requires Laid(rd, HEADER, pre + ([o] + rest))
    ensures Walk(rd, HEADER, UNKNOWN) == Parsed(Learn(pre, UNKNOWN))
  {
    WalkOver(rd, HEADER, pre, [o] + rest, UNKNOWN);
    WalkToEnd(rd, HEADER + Size(pre), o, rest, Learn(pre, UNKNOWN));
  }

  /** An address in front of an attribute that needs padding is kept whenever at
      most 8 more bytes of attributes follow, such as a FINGERPRINT: what stood
      before that attribute is what parsing gives, whatever is misread. */
  lemma AddressKeptInFront(h: seq<bv8>, pre: seq<Attr>, o: Attr, rest: seq<Attr>)
    requires |h| == HEADER && AllWellFormed(pre) && AllPadless(pre) && WellFormed(o) && o.Other?
    requires AllWellFormed(rest) && Size(rest) <= 8
    ensures AllWellFormed(pre + ([o] + rest))
    ensures Parse(h + Encode(h, pre + ([o] + rest))) == Parsed(Learn(pre, UNKNOWN))
  {
    EncodeIsLaid(h + Encode(h, pre + ([o] + rest)), h, pre + ([o] + rest));
    WalkKept(ReaderOf(h + Encode(h, pre + ([o] + rest))), pre, o, rest);
  }
}
