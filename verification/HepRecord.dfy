/** From an accepted HEP packet to its record (core-go/hep.go): what of a sender's message the database reads back. */
module HepRecord {
  import opened Bytes
  import opened Text
  import opened HepCodec
  import opened HepEncoder
  import opened HepCollector
  import opened Endpoints
  import opened CallState
  import R = Record
  import opened RecordMaker
  import Sip

  /** The node's name, or a label made from its number. */
  function AgentLabel(info: HepInfo, str: seq<byte> -> string): string {
    if info.nodeName != [] then str(info.nodeName)
    else if info.nodeId > 0 then "hep-" + IntText(info.nodeId)
    else "hep-0"
  }

  function ProtoName(t: byte): string {
    match t
    case 1 => "sip" case 5 => "rtcp" case 34 => "rtpagent" case 35 => "rtcpxr" case 38 => "horaclifix"
    case 53 => "dns" case 100 => "log" case _ => "unknown"
  }

  function TransportName(t: Transport): string {
    match t case Udp => "HEP3" case Tcp => "HEP3/TCP" case Tls => "HEP3/TLS"
  }

  /** `str` reads bytes as text. */
  function MetaOf(a: Accepted, str: seq<byte> -> string): Meta {
    Meta(
      EndpointText(a.info.srcIp, a.info.srcPort), EndpointText(a.info.dstIp, a.info.dstPort),
      TransportName(a.transport), AgentLabel(a.info, str), ProtoName(a.info.protoType), a.tsMs,
      a.info.nodeId, str(a.info.nodeName), str(a.info.correlationId))
  }

  function RecordFor(a: Accepted, str: seq<byte> -> string, base64: string -> string): CaptureRecord {
    RecordOf(MetaOf(a, str), str(a.info.payload), base64)
  }

  /** The packet handler's last step: the record of an accepted packet. */
  method MakeHepRecord(a: Accepted, str: seq<byte> -> string, base64: string -> string) returns (json: string)
    requires Plain(base64(Sip.Redact(str(a.info.payload))))
    ensures json == R.RecordText(RecordFor(a, str, base64))
  {
    json := MakeRecord(MetaOf(a, str), str(a.info.payload), base64);
  }

  /** Addresses as the decoder prints them, and a name that keeps its end. */
  predicate Canonical(m: Message, aton: string -> Option<Quad>)
    requires Encode(m, aton).Some?
  {
    && Ipv4Text(aton(m.srcIp).value) == m.srcIp && Ipv4Text(aton(m.dstIp).value) == m.dstIp
    && (m.nodeName == [] || m.nodeName[|m.nodeName| - 1] != 0)
  }

  /** What is accepted of a sender's message. */
  function AcceptedOf(m: Message, aton: string -> Option<Quad>, now: int, t: Transport): Accepted
    requires Encode(m, aton).Some?
  {
    var info := Decode(Encode(m, aton).value);
    Accepted(info, Stamp(info, now), t)
  }

  lemma AcceptedFields(m: Message, aton: string -> Option<Quad>, now: int, t: Transport)
    requires Encode(m, aton).Some? && Canonical(m, aton)
    ensures
      var a := AcceptedOf(m, aton, now, t);
      && a.info.srcIp == m.srcIp && a.info.srcPort == m.srcPort && a.info.dstIp == m.dstIp && a.info.dstPort == m.dstPort
      && a.info.nodeName == m.nodeName && a.info.correlationId == m.correlationId && a.info.nodeId == m.nodeId
      && a.info.payload == m.payload && a.info.protoType as int == m.protoType && a.transport == t && a.info.tSec == m.tSec && a.info.tUsec == m.tUsec
      && a.tsMs == if m.tSec * 1000 + m.tUsec / 1000 <= 0 then now else m.tSec * 1000 + m.tUsec / 1000
  {
    RoundTrip(m, aton, []);
    PrintedFields(m, aton);
  }

  lemma SentInRange(m: Message, aton: string -> Option<Quad>)
    requires Encode(m, aton).Some?
    ensures 0 <= m.srcPort && 0 <= m.dstPort && 0 <= m.nodeId && Int64(m.nodeId) && Int64(m.tSec * 1000 + m.tUsec / 1000)
  {
  }

  /**
   From sender to database: the record the writer reads back has the endpoints, time, node, correlation id and
   payload of the message that was encoded.
   */
  lemma {:induction false} SenderToRecord(
    m: Message, aton: string -> Option<Quad>, now: int, t: Transport, str: seq<byte> -> string, base64: string -> string)
    requires Encode(m, aton).Some? && Canonical(m, aton)
    requires Int64(now) && Int64(Utf8Length(str(m.payload)))
    ensures
      var r := RecordFor(AcceptedOf(m, aton, now, t), str, base64);
      && R.ReadRecord(R.RecordText(r)) == Some(r)
      && r.src == EndpointText(m.srcIp, m.srcPort) && r.dst == EndpointText(m.dstIp, m.dstPort)
      && r.tsMs == (if m.tSec * 1000 + m.tUsec / 1000 <= 0 then now else m.tSec * 1000 + m.tUsec / 1000)
      && r.hepNodeId == m.nodeId && r.hepNode == str(m.nodeName) && r.hepCid == str(m.correlationId)
      && r.rawB64 == base64(Sip.Redact(str(m.payload))) && r.size == Utf8Length(str(m.payload))
  {
    hide R.ReadRecord, R.RecordText, Int64, Sip.Redact, Sip.Parse, EndpointText, Canonical, Encode, AcceptedOf;
    AcceptedFields(m, aton, now, t);
    SentInRange(m, aton);
    MessageRoundTrip(MetaOf(AcceptedOf(m, aton, now, t), str), str(m.payload), base64);
  }

  /** What a record says of where it was captured: the agent that is half of its call's key, the way it came, its kind. */
  predicate Labelled(r: CaptureRecord, m: Message, t: Transport, str: seq<byte> -> string)
    requires 0 <= m.nodeId
  {
    && (m.nodeName != [] ==> r.agent == str(m.nodeName))
    && (m.nodeName == [] && m.nodeId > 0 ==> r.agent == "hep-" + NatText(m.nodeId))
    && (m.nodeName == [] && m.nodeId == 0 ==> r.agent == "hep-0")
    && (t == Udp ==> r.transport == "HEP3") && (t == Tcp ==> r.transport == "HEP3/TCP") && (t == Tls ==> r.transport == "HEP3/TLS")
    && (m.protoType == 1 ==> r.proto == "sip") && (m.protoType == 5 ==> r.proto == "rtcp")
    && (m.protoType == 34 ==> r.proto == "rtpagent") && (m.protoType == 35 ==> r.proto == "rtcpxr")
    && (m.protoType == 38 ==> r.proto == "horaclifix") && (m.protoType == 53 ==> r.proto == "dns")
    && (m.protoType == 100 ==> r.proto == "log")
    && (m.protoType !in {1, 5, 34, 35, 38, 53, 100} ==> r.proto == "unknown")
  }

  lemma {:induction false} SenderLabels(
    m: Message, aton: string -> Option<Quad>, now: int, t: Transport, str: seq<byte> -> string, base64: string -> string)
    requires Encode(m, aton).Some? && Canonical(m, aton)
    ensures 0 <= m.nodeId && Labelled(RecordFor(AcceptedOf(m, aton, now, t), str, base64), m, t, str)
  {
    hide Canonical, Encode, EndpointText, Sip.Redact, Sip.Parse, Decode, NatText;
    AcceptedFields(m, aton, now, t);
    SentInRange(m, aton);
  }

  /** The browser's exporter reads the sender's address and port back from that record, port 0 aside. */
  lemma {:induction false} SenderEndpoints(
    m: Message, aton: string -> Option<Quad>, now: int, t: Transport, str: seq<byte> -> string, base64: string -> string)
    requires Encode(m, aton).Some? && Canonical(m, aton)
    ensures
      var r := RecordFor(AcceptedOf(m, aton, now, t), str, base64);
      && ParseEp(r.src) == (m.srcIp, if m.srcPort == 0 then 5060 else m.srcPort)
      && ParseEp(r.dst) == (m.dstIp, if m.dstPort == 0 then 5060 else m.dstPort)
  {
    AcceptedFields(m, aton, now, t);
    Ipv4Endpoint(aton(m.srcIp).value, m.srcPort);
    Ipv4Endpoint(aton(m.dstIp).value, m.dstPort);
  }
}
