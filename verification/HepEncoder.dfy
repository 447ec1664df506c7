/** The HEP3 encoder of scripts/send_hep.py, and what the collector reads back from its packets. */
module HepEncoder {
  import opened Bytes
  import opened Text
  import opened HepStream
  import opened HepCodec
  import opened HepLaws

  type Quad = q: seq<byte> | |q| == 4 witness [0, 0, 0, 0]

  /** The arguments of one encoding call, with the clock reading split into seconds and microseconds. */
  datatype Message = Message(
    payload: seq<byte>, srcIp: string, dstIp: string, srcPort: int, dstPort: int, nodeId: int,
    password: seq<byte>, nodeName: seq<byte>, protoType: int, ipProto: int, correlationId: seq<byte>,
    tSec: int, tUsec: int)

  /** Every field fits its packed format. */
  predicate InRange(m: Message) {
    && 0 <= m.srcPort < 0x1_0000 && 0 <= m.dstPort < 0x1_0000
    && 0 <= m.nodeId < 0x1_0000_0000 && 0 <= m.tSec < 0x1_0000_0000 && 0 <= m.tUsec < 0x1_0000_0000
    && 0 <= m.protoType < 256 && 0 <= m.ipProto < 256
  }

  function Addresses(m: Message, src: Quad, dst: Quad): seq<Chunk>
    requires InRange(m)
  {
    [Chunk(0, 1, [2]), Chunk(0, 2, [m.ipProto]), Chunk(0, 3, src), Chunk(0, 4, dst), Chunk(0, 7, Be16(m.srcPort))]
  }

  function Stamps(m: Message): seq<Chunk>
    requires InRange(m)
  {
    [Chunk(0, 8, Be16(m.dstPort)), Chunk(0, 9, Be32(m.tSec)), Chunk(0, 10, Be32(m.tUsec)),
     Chunk(0, 11, [m.protoType]), Chunk(0, 12, Be32(m.nodeId))]
  }

  /** A chunk that is only sent when it has something to say. */
  function Optional(kind: nat, data: seq<byte>): seq<Chunk> {
    if data == [] then [] else [Chunk(0, kind, data)]
  }

  function MessageChunks(m: Message, src: Quad, dst: Quad): seq<Chunk>
    requires InRange(m)
  {
    Addresses(m, src, dst) + Stamps(m) + Optional(14, m.password) + Optional(17, m.correlationId)
    + Optional(19, m.nodeName) + [Chunk(0, 15, m.payload)]
  }

  /** The bytes on the wire, or None where the Python code raises. */
  function Encode(m: Message, aton: string -> Option<Quad>): Option<seq<byte>> {
    if aton(m.srcIp).None? || aton(m.dstIp).None? || !InRange(m) then None
    else
      var cs := MessageChunks(m, aton(m.srcIp).value, aton(m.dstIp).value);
      if FitsPacket(cs) then Some(Packet(cs)) else None
  }

  lemma FixedChunks(m: Message, src: Quad, dst: Quad)
    requires InRange(m)
    ensures Addresses(m, src, dst) + Stamps(m) == [
      Chunk(0, 1, [2]), Chunk(0, 2, [m.ipProto]), Chunk(0, 3, src), Chunk(0, 4, dst),
      Chunk(0, 7, Be16(m.srcPort)), Chunk(0, 8, Be16(m.dstPort)), Chunk(0, 9, Be32(m.tSec)),
      Chunk(0, 10, Be32(m.tUsec)), Chunk(0, 11, [m.protoType]), Chunk(0, 12, Be32(m.nodeId))]
  {
  }

  /** The encoder: optional chunks are appended to a list that is joined at the end. */
  method EncodeHep3(m: Message, aton: string -> Option<Quad>) returns (r: Option<seq<byte>>)
    ensures r == Encode(m, aton)
  {
    hide Addresses, Stamps, Be16, Be32, FitsPacket, Packet;
    if !InRange(m) {
      return None;
    }
    var src, dst := aton(m.srcIp), aton(m.dstIp);
    if src.None? || dst.None? {
      return None;
    }
    var parts := [
      Chunk(0, 1, [2]), Chunk(0, 2, [m.ipProto]), Chunk(0, 3, src.value), Chunk(0, 4, dst.value),
      Chunk(0, 7, Be16(m.srcPort)), Chunk(0, 8, Be16(m.dstPort)), Chunk(0, 9, Be32(m.tSec)),
      Chunk(0, 10, Be32(m.tUsec)), Chunk(0, 11, [m.protoType]), Chunk(0, 12, Be32(m.nodeId))];
    FixedChunks(m, src.value, dst.value);
    if m.password != [] {
      parts := parts + [Chunk(0, 14, m.password)];
    }
    if m.correlationId != [] {
      parts := parts + [Chunk(0, 17, m.correlationId)];
    }
    if m.nodeName != [] {
      parts := parts + [Chunk(0, 19, m.nodeName)];
    }
    parts := parts + [Chunk(0, 15, m.payload)];
    assert parts == MessageChunks(m, src.value, dst.value);
    r := JoinParts(parts);
  }

  /** The join of the chunks behind magic and total length; None where packing a length raises. */
  method JoinParts(parts: seq<Chunk>) returns (r: Option<seq<byte>>)
    ensures r == if FitsPacket(parts) then Some(Packet(parts)) else None
  {
    if exists c :: c in parts && !Fits(c) {
      return None;
    }
    var body := BodyBytes(parts);
    var total := 6 + |body|;
    if total >= 0x1_0000 {
      return None;
    }
    r := Some(MAGIC + Be16(total) + body);
  }

  // ----- which messages there are packets for -----

  /** What an optional field takes in a packet. */
  function OptionalSize(data: seq<byte>): nat {
    if data == [] then 0 else 6 + |data|
  }

  lemma {:induction false} FiveChunks(a: Chunk, b: Chunk, c: Chunk, d: Chunk, e: Chunk)
    requires Fits(a) && Fits(b) && Fits(c) && Fits(d) && Fits(e)
    ensures |BodyBytes([a, b, c, d, e])| == 30 + |a.data| + |b.data| + |c.data| + |d.data| + |e.data|
  {
    assert [a, b, c, d, e][1..] == [b, c, d, e] && [b, c, d, e][1..] == [c, d, e] && [c, d, e][1..] == [d, e];
    OneChunk(e);
    assert [d, e][1..] == [e];
    assert |BodyBytes([d, e])| == 12 + |d.data| + |e.data|;
    assert |BodyBytes([c, d, e])| == 18 + |c.data| + |d.data| + |e.data|;
    assert |BodyBytes([b, c, d, e])| == 24 + |b.data| + |c.data| + |d.data| + |e.data|;
  }

  lemma OneChunk(c: Chunk)
    requires Fits(c)
    ensures |BodyBytes([c])| == 6 + |c.data|
  {
    assert [c][1..] == [];
  }

  lemma OptionalBody(kind: nat, data: seq<byte>)
    requires kind < 0x1_0000 && 6 + |data| < 0x1_0000
    ensures (forall c :: c in Optional(kind, data) ==> Fits(c)) && |BodyBytes(Optional(kind, data))| == OptionalSize(data)
  {
    if data != [] {
      OneChunk(Chunk(0, kind, data));
    }
  }

  /** The size of a message's packet, where every chunk fits. */
  function PacketSize(m: Message): nat {
    93 + OptionalSize(m.password) + OptionalSize(m.correlationId) + OptionalSize(m.nodeName) + 6 + |m.payload|
  }

  predicate DataFits(m: Message) {
    |m.password| < 65530 && |m.correlationId| < 65530 && |m.nodeName| < 65530 && |m.payload| < 65530
  }

  lemma FixedBody(m: Message, src: Quad, dst: Quad)
    requires InRange(m)
    ensures (forall c :: c in Addresses(m, src, dst) ==> Fits(c)) && |BodyBytes(Addresses(m, src, dst))| == 42
    ensures (forall c :: c in Stamps(m) ==> Fits(c)) && |BodyBytes(Stamps(m))| == 45
  {
    var a, s := Addresses(m, src, dst), Stamps(m);
    FiveChunks(a[0], a[1], a[2], a[3], a[4]);
    assert a == [a[0], a[1], a[2], a[3], a[4]];
    FiveChunks(s[0], s[1], s[2], s[3], s[4]);
    assert s == [s[0], s[1], s[2], s[3], s[4]];
  }

  lemma {:induction false} TwoBodies(a: seq<Chunk>, b: seq<Chunk>)
    requires (forall c :: c in a ==> Fits(c)) && forall c :: c in b ==> Fits(c)
    ensures (forall c :: c in a + b ==> Fits(c)) && |BodyBytes(a + b)| == |BodyBytes(a)| + |BodyBytes(b)|
  {
    BodyAppend(a, b);
  }

  lemma MessageBody(m: Message, src: Quad, dst: Quad)
    requires InRange(m) && DataFits(m)
    ensures
      var cs := MessageChunks(m, src, dst);
      (forall c :: c in cs ==> Fits(c)) && 6 + |BodyBytes(cs)| == PacketSize(m)
  {
    hide Addresses, Stamps, Optional, BodyBytes, OptionalSize;
    var pw, cid, name := Optional(14, m.password), Optional(17, m.correlationId), Optional(19, m.nodeName);
    var last := Chunk(0, 15, m.payload);
    FixedBody(m, src, dst);
    OptionalBody(14, m.password);
    OptionalBody(17, m.correlationId);
    OptionalBody(19, m.nodeName);
    OneChunk(last);
    TwoBodies(Addresses(m, src, dst), Stamps(m));
    TwoBodies(Addresses(m, src, dst) + Stamps(m), pw);
    TwoBodies(Addresses(m, src, dst) + Stamps(m) + pw, cid);
    TwoBodies(Addresses(m, src, dst) + Stamps(m) + pw + cid, name);
    TwoBodies(Addresses(m, src, dst) + Stamps(m) + pw + cid + name, [last]);
  }

  lemma DataMustFit(m: Message, src: Quad, dst: Quad)
    requires InRange(m) && FitsPacket(MessageChunks(m, src, dst))
    ensures DataFits(m)
  {
    hide BodyBytes;
    var cs := MessageChunks(m, src, dst);
    assert Chunk(0, 15, m.payload) in cs;
    assert m.password != [] ==> Chunk(0, 14, m.password) in Optional(14, m.password) && Chunk(0, 14, m.password) in cs;
    assert m.correlationId != [] ==>
      Chunk(0, 17, m.correlationId) in Optional(17, m.correlationId) && Chunk(0, 17, m.correlationId) in cs;
    assert m.nodeName != [] ==> Chunk(0, 19, m.nodeName) in Optional(19, m.nodeName) && Chunk(0, 19, m.nodeName) in cs;
  }

  /**
   The encoder makes a packet exactly of the messages whose addresses can be read, whose numbers have no more than the
   16, 32 or 8 bits of their fields, and whose fields come to 65,535 bytes at most with 93 bytes for what is fixed.
   */
  lemma EncodesExactly(m: Message, aton: string -> Option<Quad>)
    ensures Encode(m, aton).Some? <==>
      && aton(m.srcIp).Some? && aton(m.dstIp).Some?
      && 0 <= m.srcPort <= 65535 && 0 <= m.dstPort <= 65535 && 0 <= m.protoType <= 255 && 0 <= m.ipProto <= 255
      && 0 <= m.nodeId <= 4294967295 && 0 <= m.tSec <= 4294967295 && 0 <= m.tUsec <= 4294967295
      && PacketSize(m) <= 65535
  {
    hide MessageChunks, BodyBytes;
    if aton(m.srcIp).Some? && aton(m.dstIp).Some? && InRange(m) {
      var src, dst := aton(m.srcIp).value, aton(m.dstIp).value;
      if FitsPacket(MessageChunks(m, src, dst)) {
        DataMustFit(m, src, dst);
      }
      if DataFits(m) {
        MessageBody(m, src, dst);
      }
    }
  }

  /** What the collector should hold after decoding the packet for `m`. */
  function Received(m: Message, src: Quad, dst: Quad): HepInfo
    requires InRange(m)
  {
    HepInfo(
      m.payload != [] || m.protoType > 0, 3, 2, Ipv4Text(src), Ipv4Text(dst), m.srcPort, m.dstPort,
      m.tSec, m.tUsec, m.protoType, m.nodeId, m.password, TrimRightNul(m.nodeName), m.correlationId, m.payload)
  }

  lemma ApplyAddresses(i: HepInfo, m: Message, src: Quad, dst: Quad)
    requires InRange(m)
    ensures ApplyAll(i, Addresses(m, src, dst))
      == i.(ipProto := 2, srcIp := Ipv4Text(src), dstIp := Ipv4Text(dst), srcPort := m.srcPort)
  {
    var cs := Addresses(m, src, dst);
    Unroll(i, cs);
  }

  lemma ApplyStamps(i: HepInfo, m: Message)
    requires InRange(m)
    ensures ApplyAll(i, Stamps(m))
      == i.(dstPort := m.dstPort, tSec := m.tSec, tUsec := m.tUsec, protoType := m.protoType, nodeId := m.nodeId)
  {
    Unroll(i, Stamps(m));
  }

  lemma Unroll(i: HepInfo, cs: seq<Chunk>)
    requires |cs| == 5
    ensures ApplyAll(i, cs) == Apply(Apply(Apply(Apply(Apply(i, cs[0]), cs[1]), cs[2]), cs[3]), cs[4])
  {
    var i1 := Apply(i, cs[0]);
    var i2 := Apply(i1, cs[1]);
    var i3 := Apply(i2, cs[2]);
    var i4 := Apply(i3, cs[3]);
    assert cs[1..][0] == cs[1] && cs[1..][1..] == cs[2..];
    assert cs[2..][0] == cs[2] && cs[2..][1..] == cs[3..];
    assert cs[3..][0] == cs[3] && cs[3..][1..] == cs[4..];
    assert cs[4..][0] == cs[4] && cs[4..][1..] == [];
    assert ApplyAll(i, cs) == ApplyAll(i1, cs[1..]) == ApplyAll(i2, cs[2..]) == ApplyAll(i3, cs[3..]) == ApplyAll(i4, cs[4..]);
  }

  lemma ApplyOptional(i: HepInfo, kind: nat, data: seq<byte>)
    ensures ApplyAll(i, Optional(kind, data)) == if data == [] then i else Apply(i, Chunk(0, kind, data))
  {
    if data != [] {
      var c := Chunk(0, kind, data);
      assert [c][1..] == [];
      assert ApplyAll(i, [c]) == ApplyAll(Apply(i, c), []);
    }
  }

  lemma ApplyOptionals(i: HepInfo, m: Message)
    requires i.nodePw == [] && i.correlationId == [] && i.nodeName == []
    ensures
      ApplyAll(ApplyAll(ApplyAll(i, Optional(14, m.password)), Optional(17, m.correlationId)), Optional(19, m.nodeName))
      == i.(nodePw := m.password, correlationId := m.correlationId, nodeName := TrimRightNul(m.nodeName))
  {
    hide ApplyAll, Optional;
    ApplyOptional(i, 14, m.password);
    var i3 := ApplyAll(i, Optional(14, m.password));
    ApplyOptional(i3, 17, m.correlationId);
    ApplyOptional(ApplyAll(i3, Optional(17, m.correlationId)), 19, m.nodeName);
  }

  lemma ApplyMessage(m: Message, src: Quad, dst: Quad)
    requires InRange(m)
    ensures Seal(ApplyAll(NO_INFO, MessageChunks(m, src, dst))) == Received(m, src, dst)
  {
    hide Addresses, Stamps, Be16, Be32, Ipv4Text, Optional;
    var head := Addresses(m, src, dst) + Stamps(m);
    var pw, cid, name := Optional(14, m.password), Optional(17, m.correlationId), Optional(19, m.nodeName);
    var last := Chunk(0, 15, m.payload);
    ApplyAllAppend(NO_INFO, head + pw + cid + name, [last]);
    ApplyAllAppend(NO_INFO, head + pw + cid, name);
    ApplyAllAppend(NO_INFO, head + pw, cid);
    ApplyAllAppend(NO_INFO, head, pw);
    ApplyAllAppend(NO_INFO, Addresses(m, src, dst), Stamps(m));
    ApplyAddresses(NO_INFO, m, src, dst);
    var i1 := ApplyAll(NO_INFO, Addresses(m, src, dst));
    ApplyStamps(i1, m);
    var i2 := ApplyAll(i1, Stamps(m));
    ApplyOptionals(i2, m);
    var i5 := ApplyAll(ApplyAll(ApplyAll(i2, pw), cid), name);
    assert ApplyAll(i5, [last]) == ApplyAll(Apply(i5, last), []);
  }

  /** Every packet the encoder emits decodes to the fields it was given, whatever bytes follow it. */
  lemma RoundTrip(m: Message, aton: string -> Option<Quad>, junk: seq<byte>)
    requires Encode(m, aton).Some?
    ensures
      var p := Encode(m, aton).value;
      && |p| < 0x1_0000 && StartsFrame(p) && U16(p, 4) == |p|
      && Decode(p) == Decode(p + junk) == Received(m, aton(m.srcIp).value, aton(m.dstIp).value)
  {
    var src, dst := aton(m.srcIp).value, aton(m.dstIp).value;
    DecodePacket(MessageChunks(m, src, dst), junk);
    ApplyMessage(m, src, dst);
  }

  lemma PrintedFields(m: Message, aton: string -> Option<Quad>)
    requires Encode(m, aton).Some?
    ensures
      var info := Decode(Encode(m, aton).value);
      && info.srcIp == Ipv4Text(aton(m.srcIp).value) && info.dstIp == Ipv4Text(aton(m.dstIp).value)
      && (info.nodeName == m.nodeName <==> m.nodeName == [] || m.nodeName[|m.nodeName| - 1] != 0)
  {
    RoundTrip(m, aton, []);
  }

  /** The text is a canonical dotted quad: four bytes in decimal, without leading zeros. */
  ghost predicate IsQuad(ip: string) {
    exists q: Quad :: Ipv4Text(q) == ip
  }

  /**
   With an address reader that reads canonical dotted quads as their bytes, and whatever else it accepts, the printed
   addresses come back unchanged exactly if they are such quads, the name exactly if it has no trailing NUL.
   */
  lemma RoundTripText(m: Message, aton: string -> Option<Quad>)
    requires Encode(m, aton).Some? && forall q: Quad :: aton(Ipv4Text(q)) == Some(q)
    ensures
      var info := Decode(Encode(m, aton).value);
      && (info.srcIp == m.srcIp <==> IsQuad(m.srcIp))
      && (info.dstIp == m.dstIp <==> IsQuad(m.dstIp))
      && (info.nodeName == m.nodeName <==> m.nodeName == [] || m.nodeName[|m.nodeName| - 1] != 0)
  {
    PrintedFields(m, aton);
    QuadPrints(m.srcIp, aton);
    QuadPrints(m.dstIp, aton);
  }

  lemma QuadPrints(ip: string, aton: string -> Option<Quad>)
    requires aton(ip).Some? && forall q: Quad :: aton(Ipv4Text(q)) == Some(q)
    ensures Ipv4Text(aton(ip).value) == ip <==> IsQuad(ip)
  {
    if q: Quad :| Ipv4Text(q) == ip {
      assert aton(Ipv4Text(q)) == Some(q);
    }
  }
}
