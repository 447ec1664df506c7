/**
 Both PCAP exporters, message list in and file out (web/static/app.js, scripts/gen_pcap.py), and what a
 PCAP reader recovers from their files.
 */
module PcapExport {
  import opened Bytes
  import opened Text
  import opened HepCodec
  import opened HepEncoder
  import opened Endpoints
  import opened PcapWriter
  import opened PcapLaws
  import opened PcapReader

  /** A stored message as the exporters receive it; `raw` is its decoded text, empty when there is none. */
  datatype Captured = Captured(tsMs: int, src: string, dst: string, raw: seq<byte>)

  // ----- stable order by timestamp -----

  /** Puts `m` behind everything that is not later. */
  function InsertByTime(ms: seq<Captured>, m: Captured): seq<Captured> {
    if ms == [] then [m]
    else if ms[|ms| - 1].tsMs <= m.tsMs then ms + [m]
    else InsertByTime(ms[..|ms| - 1], m) + [ms[|ms| - 1]]
  }

  function SortByTime(ms: seq<Captured>): seq<Captured> {
    if ms == [] then [] else InsertByTime(SortByTime(ms[..|ms| - 1]), ms[|ms| - 1])
  }

  predicate InTimeOrder(ms: seq<Captured>) {
    forall i, j :: 0 <= i < j < |ms| ==> ms[i].tsMs <= ms[j].tsMs
  }

  /** The messages of one instant, in order. */
  function At(ms: seq<Captured>, t: int): seq<Captured> {
    if ms == [] then []
    else At(ms[..|ms| - 1], t) + if ms[|ms| - 1].tsMs == t then [ms[|ms| - 1]] else []
  }

  lemma {:induction false} InsertAdds(ms: seq<Captured>, m: Captured)
    ensures multiset(InsertByTime(ms, m)) == multiset(ms) + multiset{m}
  {
    if ms != [] {
      var init, last := ms[..|ms| - 1], ms[|ms| - 1];
      assert ms == init + [last];
      if last.tsMs > m.tsMs {
        InsertAdds(init, m);
      }
    }
  }

  lemma {:induction false} InsertInOrder(ms: seq<Captured>, m: Captured)
    requires InTimeOrder(ms)
    ensures InTimeOrder(InsertByTime(ms, m))
  {
    if ms != [] && ms[|ms| - 1].tsMs > m.tsMs {
      var init, last := ms[..|ms| - 1], ms[|ms| - 1];
      InsertInOrder(init, m);
      InsertAdds(init, m);
      var r := InsertByTime(init, m);
      forall i | 0 <= i < |r| ensures r[i].tsMs <= last.tsMs {
        assert r[i] in multiset(r);
        assert r[i] in init || r[i] == m;
      }
    }
  }

  lemma AtSnoc(ms: seq<Captured>, m: Captured, t: int)
    ensures At(ms + [m], t) == At(ms, t) + if m.tsMs == t then [m] else []
  {
    assert (ms + [m])[..|ms|] == ms;
  }

  lemma {:induction false} InsertAt(ms: seq<Captured>, m: Captured, t: int)
    requires InTimeOrder(ms)
    ensures At(InsertByTime(ms, m), t) == At(ms, t) + if m.tsMs == t then [m] else []
  {
    if ms == [] || ms[|ms| - 1].tsMs <= m.tsMs {
      assert ms == [] ==> ms + [m] == [m];
      AtSnoc(ms, m, t);
    } else {
      var init, last := ms[..|ms| - 1], ms[|ms| - 1];
      InsertAt(init, m, t);
      AtSnoc(InsertByTime(init, m), last, t);
      if last.tsMs == t {
        assert m.tsMs != t;
      }
    }
  }

  /** The sort is by timestamp, loses and adds nothing, and keeps the order of messages with equal timestamps. */
  lemma {:induction false} SortIsStable(ms: seq<Captured>, t: int)
    ensures InTimeOrder(SortByTime(ms))
    ensures multiset(SortByTime(ms)) == multiset(ms)
    ensures At(SortByTime(ms), t) == At(ms, t)
  {
    if ms != [] {
      var init, last := ms[..|ms| - 1], ms[|ms| - 1];
      assert ms == init + [last];
      SortIsStable(init, t);
      InsertAdds(SortByTime(init), last);
      InsertInOrder(SortByTime(init), last);
      InsertAt(SortByTime(init), last, t);
    }
  }

  // ----- the browser's file -----

  function OrDefault(s: string): string {
    if s == "" then "0.0.0.0:5060" else s
  }

  /** JavaScript's remainder takes the sign of the dividend. */
  function JsRemainder(x: int, n: nat): int
    requires n > 0
  {
    if x >= 0 then x % n else -(-x % n)
  }

  function Wrap32(x: int): (r: nat)
    ensures r < 0x1_0000_0000
    ensures 0 <= x < 0x1_0000_0000 ==> r == x
  {
    x % 0x1_0000_0000
  }

  function PacketFor(m: Captured, id: int): seq<byte> {
    var (srcIp, srcPort) := ParseEp(OrDefault(m.src));
    var (dstIp, dstPort) := ParseEp(OrDefault(m.dst));
    PacketOf(IpBytes(srcIp), IpBytes(dstIp), srcPort, dstPort, id, m.raw)
  }

  function HeaderFor(m: Captured): seq<byte> {
    RecordHeader(Wrap32(m.tsMs / 1000), Wrap32(JsRemainder(m.tsMs, 1000) * 1000), Wrap32(42 + |m.raw|))
  }

  /** The records of the messages that have a payload; `id` numbers them. */
  function RecordsFor(ms: seq<Captured>, id: int): seq<byte> {
    if ms == [] then []
    else if ms[0].raw == [] then RecordsFor(ms[1..], id)
    else HeaderFor(ms[0]) + PacketFor(ms[0], id) + RecordsFor(ms[1..], id + 1)
  }

  /** The exporter: sort, then one packet after another into the output. */
  method BuildPcap(messages: seq<Captured>) returns (buf: seq<byte>)
    ensures buf == GlobalHeader(ETHERNET_LINK) + RecordsFor(SortByTime(messages), 1)
  {
    buf := GlobalHeader(ETHERNET_LINK);
    var sorted := SortByTime(messages);
    var ipId := 1;
    var i := 0;
    assert sorted[0..] == sorted;
    while i < |sorted|
      invariant 0 <= i <= |sorted|
      invariant GlobalHeader(ETHERNET_LINK) + RecordsFor(sorted, 1) == buf + RecordsFor(sorted[i..], ipId)
    {
      var m := sorted[i];
      ghost var rest := sorted[i..];
      assert rest[0] == m && rest[1..] == sorted[i + 1..];
      i := i + 1;
      if m.raw == [] {
        continue;
      }
      var (srcIp, srcPort) := ParseEp(OrDefault(m.src));
      var (dstIp, dstPort) := ParseEp(OrDefault(m.dst));
      var pkt := BuildPacket(IpBytes(srcIp), IpBytes(dstIp), srcPort, dstPort, ipId, m.raw);
      assert pkt[..] == PacketFor(m, ipId);
      Reassociate(buf, HeaderFor(m), pkt[..], RecordsFor(sorted[i..], ipId + 1));
      buf := buf + HeaderFor(m) + pkt[..];
      ipId := ipId + 1;
    }
    assert sorted[i..] == [];
  }

  lemma Reassociate(a: seq<byte>, b: seq<byte>, c: seq<byte>, d: seq<byte>)
    ensures a + (b + c + d) == a + b + c + d
  {
  }

  // ----- reading it back -----

  /** What the browser's packet for `m` says, addresses and ports as they fit their fields. */
  function DatagramFor(m: Captured): Datagram {
    var (srcIp, srcPort) := ParseEp(OrDefault(m.src));
    var (dstIp, dstPort) := ParseEp(OrDefault(m.dst));
    Datagram(m.tsMs, Four(IpBytes(srcIp)), Four(IpBytes(dstIp)), Wrap16(srcPort), Wrap16(dstPort), m.raw)
  }

  /** The timestamp fits the seconds field and the payload a datagram. */
  predicate Exportable(m: Captured) {
    0 <= m.tsMs < 0x1_0000_0000 * 1000 && |m.raw| <= MAX_PAYLOAD
  }

  predicate AllExportable(ms: seq<Captured>) {
    forall m :: m in ms && m.raw != [] ==> Exportable(m)
  }

  /** The messages with a payload, as they should be read. */
  function DatagramsFor(ms: seq<Captured>): seq<Datagram> {
    if ms == [] then [] else (if ms[0].raw == [] then [] else [DatagramFor(ms[0])]) + DatagramsFor(ms[1..])
  }

  lemma {:induction false} FrameBody(
    s: seq<byte>, d: seq<byte>, sport: nat, dport: nat, id: nat, check: nat, ucheck: nat, raw: seq<byte>, ip: seq<byte>)
    requires |s| == |d| == 4 && sport < 0x1_0000 && dport < 0x1_0000 && id < 0x1_0000 && check < 0x1_0000 && ucheck < 0x1_0000
    requires |raw| <= MAX_PAYLOAD
    requires ip == IpHeader(28 + |raw|, id, check, s, d) + (UdpHeader(sport, dport, 8 + |raw|, ucheck) + raw)
    ensures
      && |ip| == 28 + |raw| && ip[0] == 0x45 && ip[9] == 17 && U16(ip, 2) == 28 + |raw| && ip[12..16] == s && ip[16..20] == d
      && ip[20..] == UdpHeader(sport, dport, 8 + |raw|, ucheck) + raw
  {
    assert ip[2..4] == Be16(28 + |raw|) && ip[2] == ip[2..4][0] && ip[3] == ip[2..4][1];
  }

  lemma {:induction false} UdpBody(sport: nat, dport: nat, ucheck: nat, raw: seq<byte>, udp: seq<byte>)
    requires sport < 0x1_0000 && dport < 0x1_0000 && ucheck < 0x1_0000 && |raw| <= MAX_PAYLOAD
    requires udp == UdpHeader(sport, dport, 8 + |raw|, ucheck) + raw
    ensures U16(udp, 0) == sport && U16(udp, 2) == dport && U16(udp, 4) == 8 + |raw| == |udp| && udp[8..8 + |raw|] == raw
  {
    assert udp[0..2] == Be16(sport) && udp[2..4] == Be16(dport) && udp[4..6] == Be16(8 + |raw|);
    assert udp[0] == udp[0..2][0] && udp[1] == udp[0..2][1] && udp[2] == udp[2..4][0] && udp[3] == udp[2..4][1];
    assert udp[4] == udp[4..6][0] && udp[5] == udp[4..6][1];
  }

  lemma {:induction false} ReadPacket(src: seq<int>, dst: seq<int>, sport: int, dport: int, id: int, raw: seq<byte>, tsMs: nat)
    requires |src| <= 4 && |dst| <= 4 && |raw| <= MAX_PAYLOAD
    ensures ReadFrame(PacketOf(src, dst, sport, dport, id, raw), ETHERNET_LINK, tsMs)
      == Some(Datagram(tsMs, Four(src), Four(dst), Wrap16(sport), Wrap16(dport), raw))
  {
    var s, d, t := Four(src), Four(dst), 28 + |raw|;
    var frame := PacketOf(src, dst, sport, dport, id, raw);
    var ucheck := UdpCheck(UdpSum(s, d, sport, dport, raw));
    var check := IpCheck(t, Wrap16(id), s, d);
    var udp := UdpHeader(Wrap16(sport), Wrap16(dport), 8 + |raw|, ucheck) + raw;
    var ip := frame[14..];
    assert frame == ETHERNET + (IpHeader(t, Wrap16(id), check, s, d) + udp);
    assert frame[12] == 8 && frame[13] == 0;
    FrameBody(s, d, Wrap16(sport), Wrap16(dport), Wrap16(id), check, ucheck, raw, ip);
    UdpBody(Wrap16(sport), Wrap16(dport), ucheck, raw, udp);
    assert ip[20..t] == udp;
  }

  /** `rec`, followed by `t`, reads as `d` and leaves `t`. */
  predicate ReadsAs(rec: seq<byte>, t: seq<byte>, link: nat, d: Datagram) {
    match CutRecord(rec + t)
    case None => false
    case Some(c) => c.rest == t && ReadFrame(c.frame, link, c.tsMs) == Some(d)
  }

  lemma {:induction false} FrameInRecord(tsMs: nat, frame: seq<byte>, t: seq<byte>, link: nat, d: Datagram)
    requires tsMs < 0x1_0000_0000 * 1000 && |frame| < 0x1_0000_0000 && ReadFrame(frame, link, tsMs) == Some(d)
    ensures ReadsAs(Record(tsMs / 1000, tsMs % 1000 * 1000, frame), t, link, d)
  {
    hide ReadFrame, Record, CutRecord;
    TimeFields(tsMs);
    CutOfRecord(tsMs / 1000, tsMs % 1000 * 1000, frame, t);
  }

  lemma RecordReads(m: Captured, id: int, t: seq<byte>)
    requires Exportable(m)
    ensures ReadsAs(HeaderFor(m) + PacketFor(m, id), t, ETHERNET_LINK, DatagramFor(m))
  {
    RecordIs(m, id);
    FrameReads(m, id);
    FrameInRecord(m.tsMs, PacketFor(m, id), t, ETHERNET_LINK, DatagramFor(m));
  }

  lemma RecordIs(m: Captured, id: int)
    requires Exportable(m)
    ensures HeaderFor(m) + PacketFor(m, id) == Record(m.tsMs / 1000, m.tsMs % 1000 * 1000, PacketFor(m, id))
  {
    TimeFields(m.tsMs);
  }

  lemma FrameReads(m: Captured, id: int)
    requires Exportable(m)
    ensures ReadFrame(PacketFor(m, id), ETHERNET_LINK, m.tsMs) == Some(DatagramFor(m))
  {
    var (srcIp, srcPort) := ParseEp(OrDefault(m.src));
    var (dstIp, dstPort) := ParseEp(OrDefault(m.dst));
    ReadPacket(IpBytes(srcIp), IpBytes(dstIp), srcPort, dstPort, id, m.raw, m.tsMs);
  }

  /** No reader gets more than a datagram's worth of payload out of a frame, or another time than its record's. */
  lemma FrameBounds(frame: seq<byte>, link: nat, tsMs: nat)
    ensures ReadFrame(frame, link, tsMs).Some? ==>
      var d := ReadFrame(frame, link, tsMs).value;
      d.tsMs == tsMs && |d.payload| <= MAX_PAYLOAD
  {
  }

  /** The time a reader finds in a message's record. */
  lemma TimeRead(m: Captured, id: int, t: seq<byte>)
    requires CutRecord(HeaderFor(m) + PacketFor(m, id) + t).Some?
    ensures CutRecord(HeaderFor(m) + PacketFor(m, id) + t).value.tsMs
      == Wrap32(m.tsMs / 1000) * 1000 + Wrap32(JsRemainder(m.tsMs, 1000) * 1000) / 1000
  {
    hide RecordHeader, CutRecord, PacketFor, JsRemainder, Wrap32;
    CutTime(Wrap32(m.tsMs / 1000), Wrap32(JsRemainder(m.tsMs, 1000) * 1000), Wrap32(42 + |m.raw|), PacketFor(m, id) + t);
    assert HeaderFor(m) + PacketFor(m, id) + t == HeaderFor(m) + (PacketFor(m, id) + t);
  }

  lemma TimeLost(m: Captured)
    ensures Wrap32(m.tsMs / 1000) * 1000 + Wrap32(JsRemainder(m.tsMs, 1000) * 1000) / 1000 == m.tsMs ==>
      0 <= m.tsMs < 0x1_0000_0000 * 1000
  {
  }

  /** A message with a timestamp or payload that does not fit is never read as it was captured. */
  lemma UnfitRecord(m: Captured, id: int, t: seq<byte>, more: seq<Datagram>)
    requires !Exportable(m)
    ensures ReadRecords(HeaderFor(m) + PacketFor(m, id) + t, ETHERNET_LINK) != Some([DatagramFor(m)] + more)
  {
    hide ReadFrame, HeaderFor, PacketFor, CutRecord, JsRemainder, Wrap32;
    var s := HeaderFor(m) + PacketFor(m, id) + t;
    assert ([DatagramFor(m)] + more)[0] == DatagramFor(m);
    if CutRecord(s).Some? {
      var c := CutRecord(s).value;
      TimeRead(m, id, t);
      TimeLost(m);
      FrameBounds(c.frame, ETHERNET_LINK, c.tsMs);
    }
  }

  lemma {:induction false} ReadFirst(rec: seq<byte>, t: seq<byte>, link: nat, d: Datagram, more: seq<Datagram>)
    requires ReadsAs(rec, t, link, d) && rec != []
    ensures ReadRecords(rec + t, link) == Some([d] + more) <==> ReadRecords(t, link) == Some(more)
  {
    hide CutRecord, ReadFrame;
    if ReadRecords(t, link).Some? {
      assert ([d] + ReadRecords(t, link).value)[1..] == ReadRecords(t, link).value;
      assert ([d] + more)[1..] == more;
    }
  }

  /** One message further. */
  lemma RecordsStep(m: Captured, id: int, t: seq<byte>, more: seq<Datagram>)
    ensures ReadRecords(HeaderFor(m) + PacketFor(m, id) + t, ETHERNET_LINK) == Some([DatagramFor(m)] + more)
      <==> Exportable(m) && ReadRecords(t, ETHERNET_LINK) == Some(more)
  {
    if Exportable(m) {
      RecordReads(m, id, t);
      ReadFirst(HeaderFor(m) + PacketFor(m, id), t, ETHERNET_LINK, DatagramFor(m), more);
    } else {
      UnfitRecord(m, id, t, more);
    }
  }

  /** The records of a list read as its messages with a payload, in order, exactly when all of those fit. */
  lemma {:induction false} ReadRecordsFor(ms: seq<Captured>, id: int)
    ensures ReadRecords(RecordsFor(ms, id), ETHERNET_LINK) == Some(DatagramsFor(ms)) <==> AllExportable(ms)
  {
    hide Exportable, HeaderFor, PacketFor, DatagramFor;
    if ms != [] {
      var m := ms[0];
      assert forall x :: x in ms <==> x == m || x in ms[1..];
      if m.raw == [] {
        ReadRecordsFor(ms[1..], id);
        assert DatagramsFor(ms) == [] + DatagramsFor(ms[1..]) == DatagramsFor(ms[1..]);
      } else {
        ReadRecordsFor(ms[1..], id + 1);
        RecordsStep(m, id, RecordsFor(ms[1..], id + 1), DatagramsFor(ms[1..]));
      }
    }
  }

  /** The microseconds written for a time before 1970 are those of its positive counterpart, taken from 2^32. */
  lemma NegativeTime(ts: int)
    requires ts >= 0
    ensures Wrap32(JsRemainder(-ts, 1000) * 1000) ==
      if ts % 1000 == 0 then 0 else 4294967296 - ts % 1000 * 1000
  {
    var r: int := ts % 1000;
    assert (-r * 1000) % 4294967296 == if r == 0 then 0 else 4294967296 - r * 1000;
  }

  lemma TimeFields(ts: nat)
    requires ts < 0x1_0000_0000 * 1000
    ensures Wrap32(ts / 1000) == ts / 1000 && Wrap32(JsRemainder(ts, 1000) * 1000) == ts % 1000 * 1000
    ensures ts / 1000 * 1000 + ts % 1000 * 1000 / 1000 == ts
  {
  }

  lemma SortedMembers(ms: seq<Captured>)
    ensures forall m :: m in SortByTime(ms) <==> m in ms
  {
    SortIsStable(ms, 0);
    forall m ensures m in SortByTime(ms) <==> m in ms {
      assert m in SortByTime(ms) <==> m in multiset(SortByTime(ms));
      assert m in ms <==> m in multiset(ms);
    }
  }

  /**
   A PCAP reader recovers from the browser's file exactly the messages with a payload, in stable time order,
   if and only if each of those has a timestamp that fits its field and a payload that fits a datagram.
   */
  lemma ReadBack(ms: seq<Captured>)
    ensures ReadFile(GlobalHeader(ETHERNET_LINK) + RecordsFor(SortByTime(ms), 1)) == Some(DatagramsFor(SortByTime(ms)))
      <==> AllExportable(ms)
  {
    SortedMembers(ms);
    GlobalHeaderFields(ETHERNET_LINK, RecordsFor(SortByTime(ms), 1));
    ReadRecordsFor(SortByTime(ms), 1);
  }

  /** A message without endpoints is exported as coming from and going to 0.0.0.0, port 5060. */
  lemma NoEndpoints(m: Captured)
    requires m.src == "" && m.dst == ""
    ensures DatagramFor(m) == Datagram(m.tsMs, [0, 0, 0, 0], [0, 0, 0, 0], 5060, 5060, m.raw)
  {
    hide IpBytes, ParseEp;
    var q: seq<byte>, s := [0, 0, 0, 0], "0.0.0.0:5060";
    DefaultText(q, s, 5060);
    Ipv4Endpoint(q, 5060);
    IpBytesOfQuad(q);
    FourOfQuad(q);
  }

  lemma DefaultText(q: seq<byte>, s: string, port: nat)
    requires q == [0, 0, 0, 0] && s == "0.0.0.0:5060" && port == 5060
    ensures EndpointText(Ipv4Text(q), port) == s
  {
    assert NatText(0) == "0";
    assert Ipv4Text(q) == "0.0.0.0";
    assert NatText(506) == NatText(50) + "6" && NatText(50) == NatText(5) + "0" && NatText(5060) == NatText(506) + "0";
    assert NatText(5060) == "5060";
  }

  // ----- captured IPv4 endpoints -----

  /** The endpoint text the collector stores for an IPv4 address and port. */
  ghost predicate FromQuad(s: string, q: Quad, port: nat) {
    s == EndpointText(Ipv4Text(q), port)
  }

  /** For endpoints the collector printed, the datagram carries that very address and port, zero excepted. */
  lemma {:induction false} CapturedAddresses(m: Captured, src: Quad, sport: nat, dst: Quad, dport: nat)
    requires FromQuad(m.src, src, sport) && FromQuad(m.dst, dst, dport) && sport < 0x1_0000 && dport < 0x1_0000
    ensures DatagramFor(m) ==
      Datagram(m.tsMs, src, dst, if sport == 0 then 5060 else sport, if dport == 0 then 5060 else dport, m.raw)
  {
    Ipv4TextParts(src);
    Ipv4TextParts(dst);
    ParseEpOfEndpoint(Ipv4Text(src), sport);
    ParseEpOfEndpoint(Ipv4Text(dst), dport);
    IpBytesOfQuad(src);
    IpBytesOfQuad(dst);
    FourOfQuad(src);
    FourOfQuad(dst);
  }

  /** The endpoint text the collector stores for an IPv6 address and port. */
  ghost predicate FromIpv6(s: string, d: seq<byte>, port: nat)
    requires |d| >= 16
  {
    s == EndpointText(Ipv6Text(d), port)
  }

  /** What is left of an IPv6 address in the browser's file: the decimal digits at its front, modulo 256, and zeros. */
  function Ipv6Rest(d: seq<byte>): seq<byte>
    requires |d| >= 16
  {
    [FrontNumber(HexText(U16(d, 0))) % 256, 0, 0, 0]
  }

  lemma ExportedIpv6(s: string, d: seq<byte>, port: nat)
    requires |d| >= 16 && FromIpv6(s, d, port)
    ensures ParseEp(OrDefault(s)) == (Ipv6Text(d), port) && Four(IpBytes(Ipv6Text(d))) == Ipv6Rest(d)
  {
    hide IpBytes, Ipv6Text, FrontNumber, ParseEp, HexText, U16;
    Ipv6Endpoint(d, port);
    Ipv6TextChars(d);
    IpBytesOfIpv6(d);
  }

  /** For IPv6 endpoints the collector printed, the datagram has the ports, zero included, but only that of the addresses. */
  lemma {:induction false} CapturedIpv6(m: Captured, src: seq<byte>, sport: nat, dst: seq<byte>, dport: nat)
    requires |src| >= 16 && |dst| >= 16 && sport < 0x1_0000 && dport < 0x1_0000
    requires FromIpv6(m.src, src, sport) && FromIpv6(m.dst, dst, dport)
    ensures DatagramFor(m) == Datagram(m.tsMs, Ipv6Rest(src), Ipv6Rest(dst), sport, dport, m.raw)
  {
    hide IpBytes, Ipv6Text, FromIpv6, Ipv6Rest, ParseEp, OrDefault;
    ExportedIpv6(m.src, src, sport);
    ExportedIpv6(m.dst, dst, dport);
  }

  /** The Python exporter has the ports and 0.0.0.0, as the C library reads no brackets. */
  lemma PyIpv6(d: seq<byte>, port: nat, aton: string -> Option<Quad>)
    requires |d| >= 16 && aton("[" + Ipv6Text(d) + "]").None?
    ensures
      var (ip, p) := PyParseEndpoint(EndpointText(Ipv6Text(d), port));
      p == port && (PyAddress(ip, aton) == Ipv6Rest(d) <==> FrontNumber(HexText(U16(d, 0))) % 256 == 0)
  {
    ExportersSplitIpv6(d, port);
  }

  lemma FourOfQuad(q: Quad)
    ensures Four(q) == q
  {
  }

  // ----- the Python exporter -----

  function PyIpHeader(total: nat, src: Quad, dst: Quad): (s: seq<byte>)
    requires total < 0x1_0000
    ensures |s| == 20
  {
    [0x45, 0] + Be16(total) + [0, 0, 0, 0, 64, 17, 0, 0] + src + dst
  }

  function PyPacket(src: Quad, dst: Quad, sport: nat, dport: nat, raw: seq<byte>): seq<byte>
    requires sport < 0x1_0000 && dport < 0x1_0000 && |raw| <= MAX_PAYLOAD
  {
    PyIpHeader(28 + |raw|, src, dst) + (UdpHeader(sport, dport, 8 + |raw|, 0) + raw)
  }

  /** The fixed bytes of a Python packet, and where its lengths lie; both checksums are left zero. */
  lemma {:induction false} PyPacketBytes(src: Quad, dst: Quad, sport: nat, dport: nat, raw: seq<byte>)
    requires sport < 0x1_0000 && dport < 0x1_0000 && |raw| <= MAX_PAYLOAD
    ensures
      var p := PyPacket(src, dst, sport, dport, raw);
      && |p| == 28 + |raw| && p[..2] == [0x45, 0] && U16(p, 2) == 28 + |raw| && p[4..12] == [0, 0, 0, 0, 64, 17, 0, 0]
      && U16(p, 24) == 8 + |raw| && p[26..28] == [0, 0] && p[28..] == raw
  {
    hide U16;
    var p := PyPacket(src, dst, sport, dport, raw);
    assert p[2..4] == Be16(28 + |raw|) && p[24..26] == Be16(8 + |raw|) && p[26..28] == Be16(0);
    U16Slice(p, 2, 4, 0);
    U16Slice(p, 24, 26, 0);
  }

  /** An address the C library cannot read becomes 0.0.0.0. */
  function PyAddress(ip: string, aton: string -> Option<Quad>): Quad {
    match aton(ip) case Some(q) => q case None => [0, 0, 0, 0]
  }

  /** One message's record, or None where packing a number raises. */
  function PyRecord(m: Captured, aton: string -> Option<Quad>): Option<seq<byte>> {
    var (srcIp, sport) := PyParseEndpoint(m.src);
    var (dstIp, dport) := PyParseEndpoint(m.dst);
    if 0 <= sport < 0x1_0000 && 0 <= dport < 0x1_0000 && Exportable(m) then
      Some(Record(m.tsMs / 1000, m.tsMs % 1000 * 1000,
                  PyPacket(PyAddress(srcIp, aton), PyAddress(dstIp, aton), sport, dport, m.raw)))
    else None
  }

  function PyRecords(ms: seq<Captured>, aton: string -> Option<Quad>): Option<seq<byte>> {
    if ms == [] then Some([])
    else if ms[0].raw == [] then PyRecords(ms[1..], aton)
    else
      var first, rest := PyRecord(ms[0], aton), PyRecords(ms[1..], aton);
      if first.None? || rest.None? then None else Some(first.value + rest.value)
  }

  /** The finished file when `bytes` are written and `ms` remain. */
  function PyFinish(bytes: seq<byte>, ms: seq<Captured>, aton: string -> Option<Quad>): Option<seq<byte>> {
    match PyRecords(ms, aton) case None => None case Some(r) => Some(bytes + r)
  }

  lemma PyStep(bytes: seq<byte>, ms: seq<Captured>, aton: string -> Option<Quad>)
    requires ms != []
    ensures PyFinish(bytes, ms, aton) ==
      if ms[0].raw == [] then PyFinish(bytes, ms[1..], aton)
      else match PyRecord(ms[0], aton) case None => None case Some(r) => PyFinish(bytes + r, ms[1..], aton)
  {
    if ms[0].raw != [] && PyRecord(ms[0], aton).Some? && PyRecords(ms[1..], aton).Some? {
      var r, t := PyRecord(ms[0], aton).value, PyRecords(ms[1..], aton).value;
      assert bytes + (r + t) == bytes + r + t;
    }
  }

  /** `build_pcap` on messages already sorted; None where it raises. */
  method BuildPcapPy(ms: seq<Captured>, aton: string -> Option<Quad>) returns (out: Option<seq<byte>>)
    ensures out == PyFinish(GlobalHeader(RAW_LINK), ms, aton)
  {
    var bytes := GlobalHeader(RAW_LINK);
    var i := 0;
    assert ms[0..] == ms;
    while i < |ms|
      invariant i <= |ms| && PyFinish(bytes, ms[i..], aton) == PyFinish(GlobalHeader(RAW_LINK), ms, aton)
    {
      PyStep(bytes, ms[i..], aton);
      assert ms[i..][1..] == ms[i + 1..];
      var m := ms[i];
      i := i + 1;
      if m.raw == [] {
        continue;
      }
      var r := PyRecord(m, aton);
      if r.None? {
        return None;
      }
      bytes := bytes + r.value;
    }
    assert ms[i..] == [] && bytes + [] == bytes;
    out := Some(bytes);
  }

  lemma {:induction false} ReadPyPacket(src: Quad, dst: Quad, sport: nat, dport: nat, raw: seq<byte>, tsMs: nat)
    requires sport < 0x1_0000 && dport < 0x1_0000 && |raw| <= MAX_PAYLOAD
    ensures ReadFrame(PyPacket(src, dst, sport, dport, raw), RAW_LINK, tsMs) == Some(Datagram(tsMs, src, dst, sport, dport, raw))
  {
    var ip := PyPacket(src, dst, sport, dport, raw);
    var udp := UdpHeader(sport, dport, 8 + |raw|, 0) + raw;
    assert ip[2..4] == Be16(28 + |raw|) && ip[2] == ip[2..4][0] && ip[3] == ip[2..4][1];
    UdpBody(sport, dport, 0, raw, udp);
    assert ip[12..16] == src && ip[16..20] == dst && ip[20..28 + |raw|] == udp;
  }

  /** What the Python exporter's packet for `m` says. */
  function PyDatagramFor(m: Captured, aton: string -> Option<Quad>): Datagram
    requires PyRecord(m, aton).Some?
  {
    var (srcIp, sport) := PyParseEndpoint(m.src);
    var (dstIp, dport) := PyParseEndpoint(m.dst);
    Datagram(m.tsMs, PyAddress(srcIp, aton), PyAddress(dstIp, aton), sport, dport, m.raw)
  }

  /** Packing raises for no message with a payload. */
  predicate PyWritable(ms: seq<Captured>, aton: string -> Option<Quad>) {
    forall m :: m in ms && m.raw != [] ==> PyRecord(m, aton).Some?
  }

  function PyDatagramsFor(ms: seq<Captured>, aton: string -> Option<Quad>): seq<Datagram>
    requires PyWritable(ms, aton)
  {
    if ms == [] then []
    else (if ms[0].raw == [] then [] else [PyDatagramFor(ms[0], aton)]) + PyDatagramsFor(ms[1..], aton)
  }

  lemma PyRecordReads(m: Captured, aton: string -> Option<Quad>, t: seq<byte>)
    requires PyRecord(m, aton).Some?
    ensures ReadsAs(PyRecord(m, aton).value, t, RAW_LINK, PyDatagramFor(m, aton))
  {
    hide PyParseEndpoint, PyAddress, ReadsAs, Record, ReadFrame;
    var (srcIp, sport) := PyParseEndpoint(m.src);
    var (dstIp, dport) := PyParseEndpoint(m.dst);
    var s, d := PyAddress(srcIp, aton), PyAddress(dstIp, aton);
    ReadPyPacket(s, d, sport, dport, m.raw, m.tsMs);
    FrameInRecord(m.tsMs, PyPacket(s, d, sport, dport, m.raw), t, RAW_LINK, PyDatagramFor(m, aton));
  }

  /** The Python records of a list are written exactly when none raises, and then read as its messages with a payload. */
  lemma {:induction false} ReadPyRecords(ms: seq<Captured>, aton: string -> Option<Quad>)
    ensures PyRecords(ms, aton).Some? <==> PyWritable(ms, aton)
    ensures PyWritable(ms, aton) ==>
      ReadRecords(PyRecords(ms, aton).value, RAW_LINK) == Some(PyDatagramsFor(ms, aton))
  {
    hide PyRecord, PyDatagramFor, CutRecord, ReadFrame, ReadsAs;
    if ms != [] {
      var m := ms[0];
      assert forall x :: x in ms <==> x == m || x in ms[1..];
      ReadPyRecords(ms[1..], aton);
      if m.raw == [] {
        if PyWritable(ms, aton) {
          assert [] + PyDatagramsFor(ms[1..], aton) == PyDatagramsFor(ms[1..], aton);
        }
      } else if PyWritable(ms, aton) {
        var t := PyRecords(ms[1..], aton).value;
        PyRecordReads(m, aton, t);
        NonEmpty(PyRecord(m, aton).value, t, PyDatagramFor(m, aton));
        ReadFirst(PyRecord(m, aton).value, t, RAW_LINK, PyDatagramFor(m, aton), PyDatagramsFor(ms[1..], aton));
      }
    }
  }

  lemma NonEmpty(rec: seq<byte>, t: seq<byte>, d: Datagram)
    requires ReadsAs(rec, t, RAW_LINK, d)
    ensures rec != []
  {
    assert rec == [] ==> rec + t == t;
  }

  /** Both packets for `m` are written and say the same. */
  predicate SameDatagram(m: Captured, aton: string -> Option<Quad>) {
    PyRecord(m, aton).Some? && DatagramFor(m) == PyDatagramFor(m, aton)
  }

  predicate AllSame(ms: seq<Captured>, aton: string -> Option<Quad>) {
    forall m :: m in ms && m.raw != [] ==> SameDatagram(m, aton)
  }

  lemma {:induction false} SameOneByOne(ms: seq<Captured>, aton: string -> Option<Quad>)
    requires PyWritable(ms, aton)
    ensures DatagramsFor(ms) == PyDatagramsFor(ms, aton) <==> AllSame(ms, aton)
  {
    hide PyRecord, PyDatagramFor, DatagramFor;
    if ms != [] {
      var m := ms[0];
      assert forall x :: x in ms <==> x == m || x in ms[1..];
      SameOneByOne(ms[1..], aton);
      var a, b := DatagramsFor(ms[1..]), PyDatagramsFor(ms[1..], aton);
      if m.raw == [] {
        assert [] + a == a && [] + b == b;
      } else {
        assert ([DatagramFor(m)] + a)[1..] == a && ([PyDatagramFor(m, aton)] + b)[1..] == b;
        assert ([DatagramFor(m)] + a)[0] == DatagramFor(m) && ([PyDatagramFor(m, aton)] + b)[0] == PyDatagramFor(m, aton);
      }
    }
  }

  lemma PyWritableFits(ms: seq<Captured>, aton: string -> Option<Quad>)
    requires PyWritable(ms, aton)
    ensures AllExportable(ms)
  {
    forall m | m in ms && m.raw != [] ensures Exportable(m) {
      assert PyRecord(m, aton).Some?;
    }
  }

  /** The Python exporter writes a file, and it reads as the browser's does. */
  predicate FilesAlike(ms: seq<Captured>, aton: string -> Option<Quad>) {
    && PyRecords(ms, aton).Some?
    && ReadFile(GlobalHeader(RAW_LINK) + PyRecords(ms, aton).value)
      == ReadFile(GlobalHeader(ETHERNET_LINK) + RecordsFor(ms, 1))
  }

  /** Both files of any messages read alike exactly when each message with a payload is written alike in both. */
  lemma FilesAlikeExact(ms: seq<Captured>, aton: string -> Option<Quad>)
    ensures FilesAlike(SortByTime(ms), aton) <==> AllSame(ms, aton)
  {
    hide PyRecords, RecordsFor, PyRecord, DatagramFor, PyDatagramFor, DatagramsFor, PyDatagramsFor, SortByTime,
      ReadRecords, GlobalHeader, Le32At, Exportable;
    var sorted := SortByTime(ms);
    SortedMembers(ms);
    ReadPyRecords(sorted, aton);
    if PyWritable(sorted, aton) {
      PyWritableFits(sorted, aton);
      ReadRecordsFor(sorted, 1);
      GlobalHeaderFields(ETHERNET_LINK, RecordsFor(sorted, 1));
      GlobalHeaderFields(RAW_LINK, PyRecords(sorted, aton).value);
      SameOneByOne(sorted, aton);
    }
  }

  // ----- which printed endpoints are written alike -----

  /** An endpoint as the collector prints it. */
  datatype Endpoint = V4(q: Quad, port: nat) | V6(d: seq<byte>, port: nat)

  predicate Real(e: Endpoint) {
    e.port < 0x1_0000 && (e.V6? ==> |e.d| >= 16)
  }

  function TextOf(e: Endpoint): string
    requires Real(e)
  {
    EndpointText(match e case V4(q, _) => Ipv4Text(q) case V6(d, _) => Ipv6Text(d), e.port)
  }

  /** Addresses the C library reads: printed quads, and no address in brackets. */
  ghost predicate ReadsQuads(aton: string -> Option<Quad>) {
    (forall q: Quad :: aton(Ipv4Text(q)) == Some(q))
    && forall d: seq<byte> :: |d| >= 16 ==> aton("[" + Ipv6Text(d) + "]").None?
  }

  /** A nonzero port, or an IPv6 address of which neither exporter keeps anything. */
  predicate WrittenAlike(e: Endpoint)
    requires Real(e)
  {
    match e case V4(_, port) => port != 0 case V6(d, _) => FrontNumber(HexText(U16(d, 0))) % 256 == 0
  }

  lemma EndpointRead(s: string, e: Endpoint, aton: string -> Option<Quad>)
    requires Real(e) && s == TextOf(e) && ReadsQuads(aton)
    ensures
      var (ip, port) := ParseEp(OrDefault(s));
      var (pip, pport) := PyParseEndpoint(s);
      && pport == e.port
      && ((Four(IpBytes(ip)) == PyAddress(pip, aton) && Wrap16(port) == pport) <==> WrittenAlike(e))
  {
    hide IpBytes, Ipv6Text, Ipv4Text, FrontNumber, ParseEp, PyParseEndpoint, HexText, U16;
    match e
    case V4(q, port) =>
      Ipv4TextParts(q);
      Ipv4Endpoint(q, port);
      PyEndpointOfQuad(q, port);
      IpBytesOfQuad(q);
      FourOfQuad(q);
    case V6(d, port) =>
      ExportedIpv6(s, d, port);
      ExportersSplitIpv6(d, port);
      PyIpv6(d, port, aton);
  }

  lemma MessageAlike(m: Captured, src: Endpoint, dst: Endpoint, aton: string -> Option<Quad>)
    requires Real(src) && Real(dst) && m.src == TextOf(src) && m.dst == TextOf(dst) && ReadsQuads(aton)
    ensures SameDatagram(m, aton) <==> Exportable(m) && WrittenAlike(src) && WrittenAlike(dst)
  {
    hide IpBytes, ParseEp, PyParseEndpoint, TextOf, WrittenAlike, ReadsQuads, PyPacket, Record, PyAddress;
    EndpointRead(m.src, src, aton);
    EndpointRead(m.dst, dst, aton);
  }

  /**
   On messages whose endpoints the collector printed, both files read as the same datagrams if and only if each message
   with a payload fits its fields and has IPv4 endpoints with nonzero ports, IPv6 addresses that leave nothing aside.
   */
  lemma ExportersCarryTheSame(
    ms: seq<Captured>, src: Captured -> Endpoint, dst: Captured -> Endpoint, aton: string -> Option<Quad>)
    requires ReadsQuads(aton)
    requires forall m :: m in ms && m.raw != [] ==>
      Real(src(m)) && Real(dst(m)) && m.src == TextOf(src(m)) && m.dst == TextOf(dst(m))
    ensures FilesAlike(SortByTime(ms), aton) <==>
      forall m :: m in ms && m.raw != [] ==> Exportable(m) && WrittenAlike(src(m)) && WrittenAlike(dst(m))
  {
    hide FilesAlike, SameDatagram, TextOf, WrittenAlike, Exportable, ReadsQuads, SortByTime;
    FilesAlikeExact(ms, aton);
    forall m | m in ms && m.raw != []
      ensures SameDatagram(m, aton) <==> Exportable(m) && WrittenAlike(src(m)) && WrittenAlike(dst(m))
    {
      MessageAlike(m, src(m), dst(m), aton);
    }
  }
}
