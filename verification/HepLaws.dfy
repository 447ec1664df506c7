/** What the HEP3 decoder makes of chunk lists: unknown chunks, reordering, and the encoder's packets. */
module HepLaws {
  import opened Bytes
  import opened Sequences
  import opened Text
  import opened HepStream
  import opened HepCodec

  // ----- one chunk, one field -----

  /** Ports, times and node numbers are the chunk's bytes, the most significant first; a node number may have two bytes. */
  lemma Numbers(info: HepInfo, vendor: nat, d: seq<byte>)
    requires |d| >= 2
    ensures Apply(info, Chunk(vendor, 7, d)).srcPort == 256 * d[0] as int + d[1] as int
    ensures Apply(info, Chunk(vendor, 8, d)).dstPort == 256 * d[0] as int + d[1] as int
    ensures |d| < 4 ==> Apply(info, Chunk(vendor, 12, d)).nodeId == 256 * d[0] as int + d[1] as int
    ensures |d| >= 4 ==>
      var n := 16777216 * d[0] as int + 65536 * d[1] as int + 256 * d[2] as int + d[3] as int;
      && Apply(info, Chunk(vendor, 9, d)).tSec == n && Apply(info, Chunk(vendor, 10, d)).tUsec == n
      && Apply(info, Chunk(vendor, 12, d)).nodeId == n
  {
  }

  datatype Slot = IpProto | Src | Dst | SrcPort | DstPort | Sec | Usec | Proto | Node | Pw | Payload | Cid | Name

  /** The field a chunk overwrites, if any; the IPv4 and IPv6 address chunks share theirs. */
  function SlotOf(c: Chunk): Option<Slot> {
    var n := |c.data|;
    match c.kind
    case 1 => if n >= 1 then Some(IpProto) else None
    case 3 => if n >= 4 then Some(Src) else None
    case 4 => if n >= 4 then Some(Dst) else None
    case 5 => if n >= 16 then Some(Src) else None
    case 6 => if n >= 16 then Some(Dst) else None
    case 7 => if n >= 2 then Some(SrcPort) else None
    case 8 => if n >= 2 then Some(DstPort) else None
    case 9 => if n >= 4 then Some(Sec) else None
    case 10 => if n >= 4 then Some(Usec) else None
    case 11 => if n >= 1 then Some(Proto) else None
    case 12 => if n >= 2 then Some(Node) else None
    case 14 => Some(Pw)
    case 15 => Some(Payload)
    case 17 => Some(Cid)
    case 19 => Some(Name)
    case _ => None
  }

  predicate Clash(c: Chunk, d: Chunk) {
    SlotOf(c).Some? && SlotOf(c) == SlotOf(d)
  }

  /** Fields outside the chunk's slot are kept, and the slot's new value does not depend on what was there. */
  lemma ApplyFrame(i: HepInfo, c: Chunk)
    ensures Apply(i, c) == Merge(SlotOf(c), i, Apply(NO_INFO, c))
  {
  }

  /** `i` with the field `s` taken from `from`. */
  function Merge(s: Option<Slot>, i: HepInfo, from: HepInfo): HepInfo {
    HepInfo(
      i.ok, i.version,
      if s == Some(IpProto) then from.ipProto else i.ipProto,
      if s == Some(Src) then from.srcIp else i.srcIp,
      if s == Some(Dst) then from.dstIp else i.dstIp,
      if s == Some(SrcPort) then from.srcPort else i.srcPort,
      if s == Some(DstPort) then from.dstPort else i.dstPort,
      if s == Some(Sec) then from.tSec else i.tSec,
      if s == Some(Usec) then from.tUsec else i.tUsec,
      if s == Some(Proto) then from.protoType else i.protoType,
      if s == Some(Node) then from.nodeId else i.nodeId,
      if s == Some(Pw) then from.nodePw else i.nodePw,
      if s == Some(Name) then from.nodeName else i.nodeName,
      if s == Some(Cid) then from.correlationId else i.correlationId,
      if s == Some(Payload) then from.payload else i.payload)
  }

  /** Two chunks commute from every state exactly when they do not clash or write the same value. */
  lemma CommuteIff(c: Chunk, d: Chunk)
    ensures (forall i :: Apply(Apply(i, c), d) == Apply(Apply(i, d), c))
      <==> Agree(c, d)
  {
    forall i ensures Agree(c, d) ==> Apply(Apply(i, c), d) == Apply(Apply(i, d), c) {
      if Clash(c, d) {
        LastWins(i, c, d);
        LastWins(i, d, c);
        ApplyFrame(i, c);
        ApplyFrame(i, d);
      } else {
        Commute(i, c, d);
      }
    }
    if Clash(c, d) {
      LastWins(NO_INFO, c, d);
      LastWins(NO_INFO, d, c);
    }
  }

  lemma Commute(i: HepInfo, c: Chunk, d: Chunk)
    requires !Clash(c, d)
    ensures Apply(Apply(i, c), d) == Apply(Apply(i, d), c)
  {
    ApplyTwice(i, c, d);
    ApplyTwice(i, d, c);
  }

  lemma LastWins(i: HepInfo, c: Chunk, d: Chunk)
    requires Clash(c, d)
    ensures Apply(Apply(i, c), d) == Apply(i, d)
  {
    ApplyTwice(i, c, d);
    ApplyFrame(i, d);
  }

  lemma ApplyTwice(i: HepInfo, c: Chunk, d: Chunk)
    ensures Apply(Apply(i, c), d) == Merge(SlotOf(d), Merge(SlotOf(c), i, Apply(NO_INFO, c)), Apply(NO_INFO, d))
  {
    ApplyFrame(i, c);
    ApplyFrame(Apply(i, c), d);
  }

  // ----- chunk lists -----

  lemma {:induction false} ApplyAllAppend(info: HepInfo, a: seq<Chunk>, b: seq<Chunk>)
    ensures ApplyAll(info, a + b) == ApplyAll(ApplyAll(info, a), b)
    decreases |a|
  {
    if a == [] {
      assert a + b == b;
    } else {
      assert (a + b)[1..] == a[1..] + b;
      ApplyAllAppend(Apply(info, a[0]), a[1..], b);
    }
  }

  /** The two chunks write different fields, or the same value. */
  predicate Agree(c: Chunk, d: Chunk) {
    !Clash(c, d) || Apply(NO_INFO, c) == Apply(NO_INFO, d)
  }

  predicate Agreeing(cs: seq<Chunk>) {
    forall i, j :: 0 <= i < j < |cs| ==> Agree(cs[i], cs[j])
  }

  lemma AgreeCommute(i: HepInfo, c: Chunk, d: Chunk)
    requires Agree(c, d)
    ensures Apply(Apply(i, c), d) == Apply(Apply(i, d), c)
  {
    CommuteIff(c, d);
  }

  /** A chunk that agrees with each of `a` may be read before them or after them. */
  lemma {:induction false} MoveToFront(info: HepInfo, a: seq<Chunk>, c: Chunk)
    requires forall i :: 0 <= i < |a| ==> Agree(c, a[i])
    ensures ApplyAll(info, a + [c]) == ApplyAll(Apply(info, c), a)
    decreases |a|
  {
    if a == [] {
      assert a + [c] == [c] && [c][1..] == [];
    } else {
      assert (a + [c])[1..] == a[1..] + [c];
      MoveToFront(Apply(info, a[0]), a[1..], c);
      AgreeCommute(info, c, a[0]);
    }
  }

  lemma FirstAgrees(a: seq<Chunk>, b: seq<Chunk>, k: nat)
    requires a != [] && multiset(a) == multiset(b) && Agreeing(a) && k <= |b| && a[0] !in b[..k]
    ensures forall i :: 0 <= i < k ==> Agree(a[0], b[i])
  {
    forall i | 0 <= i < k ensures Agree(a[0], b[i]) {
      assert b[i] in multiset(b) && b[i] in a && b[i] in b[..k];
    }
  }

  /** Reordering chunks that agree pairwise changes nothing, from any state. */
  lemma {:induction false} Reorder(info: HepInfo, a: seq<Chunk>, b: seq<Chunk>)
    requires multiset(a) == multiset(b) && Agreeing(a)
    ensures ApplyAll(info, a) == ApplyAll(info, b)
    decreases |a|
  {
    if a == [] {
      assert |multiset(b)| == 0;
    } else {
      var c := a[0];
      assert c in multiset(a) && c in b;
      var k := FirstIndex(b, c);
      var b1, b2 := b[..k], b[k + 1..];
      assert b == b1 + [c] + b2;
      TakeOut(a, b, k);
      FirstAgrees(a, b, k);
      ApplyAllAppend(info, b1 + [c], b2);
      MoveToFront(info, b1, c);
      ApplyAllAppend(Apply(info, c), b1, b2);
      Reorder(Apply(info, c), a[1..], b1 + b2);
    }
  }

  lemma ApplyPair(info: HepInfo, a: seq<Chunk>, c: Chunk, d: Chunk)
    requires Clash(c, d)
    ensures ApplyAll(info, a + [c, d]) == Apply(ApplyAll(info, a), d)
  {
    var i := ApplyAll(info, a);
    ApplyAllAppend(info, a, [c, d]);
    assert [c, d][1..] == [d] && [d][1..] == [];
    assert ApplyAll(Apply(i, c), [d]) == ApplyAll(Apply(Apply(i, c), d), []);
    LastWins(i, c, d);
  }

  /** Two chunks that write one field write the same value in every state or in none. */
  lemma SameWrite(i: HepInfo, c: Chunk, d: Chunk)
    requires Clash(c, d) && Apply(i, c) == Apply(i, d)
    ensures Apply(NO_INFO, c) == Apply(NO_INFO, d)
  {
    ApplyFrame(i, c);
    ApplyFrame(i, d);
    ApplyFrame(NO_INFO, c);
    ApplyFrame(NO_INFO, d);
  }

  /** Every order of the chunks gives the same fields if and only if each two of them agree. */
  lemma PermutationInvariant(a: seq<Chunk>)
    ensures (forall b :: multiset(b) == multiset(a) ==> ApplyAll(NO_INFO, b) == ApplyAll(NO_INFO, a)) <==> Agreeing(a)
  {
    if Agreeing(a) {
      forall b | multiset(b) == multiset(a) ensures ApplyAll(NO_INFO, b) == ApplyAll(NO_INFO, a) {
        Reorder(NO_INFO, a, b);
      }
    } else {
      var i, j :| 0 <= i < j < |a| && !Agree(a[i], a[j]);
      OrdersDiffer(a, i, j);
    }
  }

  lemma LastTwoDiffer(rest: seq<Chunk>, c: Chunk, d: Chunk)
    requires !Agree(c, d)
    ensures ApplyAll(NO_INFO, rest + [c, d]) != ApplyAll(NO_INFO, rest + [d, c])
  {
    var i := ApplyAll(NO_INFO, rest);
    ApplyPair(NO_INFO, rest, c, d);
    ApplyPair(NO_INFO, rest, d, c);
    if Apply(i, c) == Apply(i, d) {
      SameWrite(i, c, d);
    }
  }

  /** With a pair that disagrees moved to the end, its two orders give different fields. */
  lemma OrdersDiffer(a: seq<Chunk>, i: nat, j: nat)
    requires i < j < |a| && !Agree(a[i], a[j])
    ensures exists b :: multiset(b) == multiset(a) && ApplyAll(NO_INFO, b) != ApplyAll(NO_INFO, a)
  {
    var rest := a[..i] + a[i + 1..j] + a[j + 1..];
    MoveTwoToEnd(a, i, j);
    LastTwoDiffer(rest, a[i], a[j]);
    OneDiffers(a, rest + [a[i], a[j]], rest + [a[j], a[i]]);
  }

  lemma OneDiffers(a: seq<Chunk>, x: seq<Chunk>, y: seq<Chunk>)
    requires multiset(x) == multiset(y) == multiset(a) && ApplyAll(NO_INFO, x) != ApplyAll(NO_INFO, y)
    ensures exists b :: multiset(b) == multiset(a) && ApplyAll(NO_INFO, b) != ApplyAll(NO_INFO, a)
  {
  }

  // ----- packets -----

  predicate Fits(c: Chunk) {
    c.vendor < 0x1_0000 && c.kind < 0x1_0000 && 6 + |c.data| < 0x1_0000
  }

  function ChunkBytes(c: Chunk): (s: seq<byte>)
    requires Fits(c)
    ensures |s| == 6 + |c.data|
  {
    Be16(c.vendor) + Be16(c.kind) + Be16(6 + |c.data|) + c.data
  }

  function BodyBytes(cs: seq<Chunk>): seq<byte>
    requires forall c :: c in cs ==> Fits(c)
  {
    if cs == [] then [] else ChunkBytes(cs[0]) + BodyBytes(cs[1..])
  }

  predicate FitsPacket(cs: seq<Chunk>) {
    (forall c :: c in cs ==> Fits(c)) && 6 + |BodyBytes(cs)| < 0x1_0000
  }

  function Packet(cs: seq<Chunk>): (s: seq<byte>)
    requires FitsPacket(cs)
    ensures |s| == 6 + |BodyBytes(cs)|
  {
    MAGIC + Be16(6 + |BodyBytes(cs)|) + BodyBytes(cs)
  }

  /** The chunk reader undoes the chunk writer. */
  lemma {:induction false} ChunksOfBody(cs: seq<Chunk>)
    requires forall c :: c in cs ==> Fits(c)
    ensures Chunks(BodyBytes(cs)) == cs
  {
    if cs != [] {
      ChunkFields(cs[0], BodyBytes(cs[1..]));
      ChunksOfBody(cs[1..]);
    }
  }

  lemma ChunkFields(c: Chunk, t: seq<byte>)
    requires Fits(c)
    ensures
      var b := ChunkBytes(c) + t;
      var n := 6 + |c.data|;
      U16(b, 0) == c.vendor && U16(b, 2) == c.kind && U16(b, 4) == n && b[6..n] == c.data && b[n..] == t
  {
    var b := ChunkBytes(c) + t;
    assert b[0..2] == Be16(c.vendor) && b[2..4] == Be16(c.kind) && b[4..6] == Be16(6 + |c.data|);
    assert b[0] == b[0..2][0] && b[1] == b[0..2][1];
    assert b[2] == b[2..4][0] && b[3] == b[2..4][1];
    assert b[4] == b[4..6][0] && b[5] == b[4..6][1];
  }

  /** A packet is one frame, and decoding it, whatever follows it, applies exactly its chunks in order. */
  lemma DecodePacket(cs: seq<Chunk>, junk: seq<byte>)
    requires FitsPacket(cs)
    ensures
      var p := Packet(cs);
      && StartsFrame(p) && U16(p, 4) == |p|
      && Decode(p + junk) == Decode(p) == Seal(ApplyAll(NO_INFO, cs))
  {
    PacketHeader(cs, []);
    PacketHeader(cs, junk);
    assert Packet(cs) + [] == Packet(cs);
    ChunksOfBody(cs);
  }

  lemma PacketHeader(cs: seq<Chunk>, junk: seq<byte>)
    requires FitsPacket(cs)
    ensures
      var p := Packet(cs) + junk;
      && HasMagic(p) && U16(p, 4) == |Packet(cs)|
      && Covered(p) == |Packet(cs)| && p[6..Covered(p)] == BodyBytes(cs)
  {
    var p := Packet(cs) + junk;
    assert p[..4] == MAGIC;
    assert p[4..6] == Be16(|Packet(cs)|) && p[4] == p[4..6][0] && p[5] == p[4..6][1];
  }

  /** A chunk that writes no field (unknown type, or too short) can be inserted anywhere. */
  lemma IgnoredChunk(a: seq<Chunk>, u: Chunk, b: seq<Chunk>)
    requires SlotOf(u).None? && FitsPacket(a + [u] + b) && FitsPacket(a + b)
    ensures Decode(Packet(a + [u] + b)) == Decode(Packet(a + b))
  {
    DecodePacket(a + [u] + b, []);
    DecodePacket(a + b, []);
    assert Packet(a + [u] + b) + [] == Packet(a + [u] + b) && Packet(a + b) + [] == Packet(a + b);
    var start := ApplyAll(NO_INFO, a);
    ApplyAllAppend(NO_INFO, a + [u], b);
    ApplyAllAppend(NO_INFO, a, [u]);
    ApplyAllAppend(NO_INFO, a, b);
    ApplyFrame(start, u);
    assert ApplyAll(start, [u]) == Apply(start, u);
  }

  lemma {:induction false} BodyAppend(a: seq<Chunk>, b: seq<Chunk>)
    requires forall c :: c in a + b ==> Fits(c)
    ensures (forall c :: c in a ==> Fits(c)) && (forall c :: c in b ==> Fits(c))
    ensures BodyBytes(a + b) == BodyBytes(a) + BodyBytes(b)
  {
    assert forall c :: c in a || c in b ==> c in a + b;
    if a == [] {
      assert a + b == b;
    } else {
      assert (a + b)[1..] == a[1..] + b;
      BodyAppend(a[1..], b);
    }
  }

  /** A permutation of a packet's chunks is as long. */
  lemma {:induction false} BodyReordered(a: seq<Chunk>, b: seq<Chunk>)
    requires multiset(a) == multiset(b) && forall c :: c in a ==> Fits(c)
    ensures (forall c :: c in b ==> Fits(c)) && |BodyBytes(a)| == |BodyBytes(b)|
    decreases |a|
  {
    forall c | c in b ensures Fits(c) {
      assert c in multiset(b) && c in a;
    }
    if a == [] {
      assert |multiset(b)| == 0;
    } else {
      assert a[0] in multiset(a) && a[0] in b;
      var k := FirstIndex(b, a[0]);
      TakeOut(a, b, k);
      BodyReordered(a[1..], b[..k] + b[k + 1..]);
      BodyWithout(b, k);
    }
  }

  lemma BodyWithout(b: seq<Chunk>, k: nat)
    requires k < |b| && forall c :: c in b ==> Fits(c)
    ensures forall c :: c in b[..k] + b[k + 1..] ==> Fits(c)
    ensures |BodyBytes(b)| == |ChunkBytes(b[k])| + |BodyBytes(b[..k] + b[k + 1..])|
  {
    assert b == b[..k] + b[k..] && b[k..][1..] == b[k + 1..];
    BodyAppend(b[..k], b[k..]);
    BodyAppend(b[..k], b[k + 1..]);
  }

  lemma {:induction false} ApplyAllFlags(info: HepInfo, cs: seq<Chunk>)
    ensures ApplyAll(info, cs).ok == info.ok && ApplyAll(info, cs).version == info.version
    decreases |cs|
  {
    if cs != [] {
      ApplyFrame(info, cs[0]);
      ApplyAllFlags(Apply(info, cs[0]), cs[1..]);
    }
  }

  lemma DecodeOfPacket(cs: seq<Chunk>)
    requires FitsPacket(cs)
    ensures Decode(Packet(cs)) == Seal(ApplyAll(NO_INFO, cs))
  {
    DecodePacket(cs, []);
  }

  lemma DecodedAlike(a: seq<Chunk>, b: seq<Chunk>)
    requires FitsPacket(a) && FitsPacket(b)
    ensures Decode(Packet(a)) == Decode(Packet(b)) <==> ApplyAll(NO_INFO, a) == ApplyAll(NO_INFO, b)
  {
    DecodeOfPacket(a);
    DecodeOfPacket(b);
    ApplyAllFlags(NO_INFO, a);
    ApplyAllFlags(NO_INFO, b);
  }

  /** A permutation of a packet's chunks makes a packet, and it decodes alike exactly if the fields come out alike. */
  lemma PermutedPacket(a: seq<Chunk>, b: seq<Chunk>)
    requires FitsPacket(a) && multiset(b) == multiset(a)
    ensures FitsPacket(b)
    ensures Decode(Packet(b)) == Decode(Packet(a)) <==> ApplyAll(NO_INFO, b) == ApplyAll(NO_INFO, a)
  {
    BodyReordered(a, b);
    DecodedAlike(b, a);
  }

  /** Another packet of the same chunks decodes alike. */
  predicate DecodesAlike(a: seq<Chunk>, b: seq<Chunk>)
    requires FitsPacket(a)
  {
    FitsPacket(b) && Decode(Packet(b)) == Decode(Packet(a))
  }

  /** Every packet made of a packet's chunks in another order decodes like it if and only if each two chunks agree. */
  lemma ReorderedPacket(a: seq<Chunk>)
    requires FitsPacket(a)
    ensures (forall b :: multiset(b) == multiset(a) ==> DecodesAlike(a, b)) <==> Agreeing(a)
  {
    PermutationInvariant(a);
    if Agreeing(a) {
      forall b | multiset(b) == multiset(a) ensures DecodesAlike(a, b) {
        PermutedPacket(a, b);
      }
    } else {
      var b :| multiset(b) == multiset(a) && ApplyAll(NO_INFO, b) != ApplyAll(NO_INFO, a);
      PermutedPacket(a, b);
      assert !DecodesAlike(a, b);
    }
  }

  /** Distinct types are not enough: an IPv4 and an IPv6 source chunk write the same field. */
  lemma AddressFamiliesClash()
    ensures
      var v4 := Chunk(0, 3, [10, 0, 0, 1]);
      var v6 := Chunk(0, 5, seq(16, i => 0));
      && v4.kind != v6.kind && FitsPacket([v4, v6]) && FitsPacket([v6, v4])
      && Decode(Packet([v4, v6])) != Decode(Packet([v6, v4]))
  {
    var v4 := Chunk(0, 3, [10, 0, 0, 1]);
    var v6 := Chunk(0, 5, seq(16, i => 0));
    DecodeTwo(v4, v6);
    DecodeTwo(v6, v4);
    LastWins(NO_INFO, v4, v6);
    LastWins(NO_INFO, v6, v4);
    assert Ipv6Text(v6.data)[0] == '0';
    assert NatText(10) == NatText(1) + ['0'];
    assert Ipv4Text(v4.data)[0] == '1';
  }

  lemma DecodeTwo(c: Chunk, d: Chunk)
    requires Fits(c) && Fits(d) && 18 + |c.data| + |d.data| < 0x1_0000
    ensures FitsPacket([c, d]) && Decode(Packet([c, d])) == Seal(Apply(Apply(NO_INFO, c), d))
  {
    assert BodyBytes([d]) == ChunkBytes(d) + [];
    assert [c, d][1..] == [d];
    DecodePacket([c, d], []);
    assert Packet([c, d]) + [] == Packet([c, d]);
    assert ApplyAll(Apply(NO_INFO, c), [d]) == Apply(Apply(NO_INFO, c), d);
  }
}
