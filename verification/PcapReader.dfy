/** A reader for classic little-endian PCAP files that hold UDP over IPv4, written against the file format. */
module PcapReader {
  import opened Bytes
  import opened Text

  /** One UDP datagram of a capture file. */
  datatype Datagram = Datagram(tsMs: int, src: seq<byte>, dst: seq<byte>, sport: nat, dport: nat, payload: seq<byte>)

  const PCAP_MAGIC := 0xa1b2c3d4
  const ETHERNET_LINK := 1
  const RAW_LINK := 101

  /** An IPv4 packet with a UDP datagram in it. */
  function ReadIp(ip: seq<byte>, tsMs: nat): Option<Datagram> {
    if |ip| < 20 || ip[0] / 16 != 4 || ip[0] % 16 < 5 || ip[9] != 17 then None
    else
      var ihl, total := 4 * (ip[0] as int % 16), U16(ip, 2);
      if !(ihl + 8 <= total <= |ip|) then None
      else
        var udp := ip[ihl..total];
        if !(8 <= U16(udp, 4) <= |udp|) then None
        else Some(Datagram(tsMs, ip[12..16], ip[16..20], U16(udp, 0), U16(udp, 2), udp[8..U16(udp, 4)]))
  }

  function ReadFrame(frame: seq<byte>, link: nat, tsMs: nat): Option<Datagram> {
    if link == 101 then ReadIp(frame, tsMs)
    else if |frame| < 14 || U16(frame, 12) != 0x0800 then None
    else ReadIp(frame[14..], tsMs)
  }

  /** A record cut off the front of a file, stored at its full length: its time, its frame, and what follows. */
  datatype Cut = Cut(tsMs: nat, frame: seq<byte>, rest: seq<byte>)

  function CutRecord(s: seq<byte>): (c: Option<Cut>)
    ensures c.Some? ==> |c.value.rest| < |s|
  {
    if |s| < 16 || Le32At(s, 12) != Le32At(s, 8) || |s| < 16 + Le32At(s, 8) then None
    else
      var end := 16 + Le32At(s, 8);
      Some(Cut(Le32At(s, 0) * 1000 + Le32At(s, 4) / 1000, s[16..end], s[end..]))
  }

  function ReadRecords(s: seq<byte>, link: nat): Option<seq<Datagram>>
    decreases |s|
  {
    if s == [] then Some([])
    else
      match CutRecord(s)
      case None => None
      case Some(c) =>
        var first := ReadFrame(c.frame, link, c.tsMs);
        var rest := ReadRecords(c.rest, link);
        if first.None? || rest.None? then None else Some([first.value] + rest.value)
  }

  function ReadFile(s: seq<byte>): Option<seq<Datagram>> {
    if |s| < 24 || Le32At(s, 0) != PCAP_MAGIC || s[4..8] != [2, 0, 4, 0] then None
    else if Le32At(s, 20) != 1 && Le32At(s, 20) != 101 then None
    else ReadRecords(s[24..], Le32At(s, 20))
  }

  // ----- writing the same format -----

  function GlobalHeader(link: nat): (s: seq<byte>)
    requires link < 0x1_0000_0000
    ensures |s| == 24
  {
    Le32(PCAP_MAGIC) + Le16(2) + Le16(4) + Le32(0) + Le32(0) + Le32(65535) + Le32(link)
  }

  function RecordHeader(sec: nat, usec: nat, len: nat): (s: seq<byte>)
    requires sec < 0x1_0000_0000 && usec < 0x1_0000_0000 && len < 0x1_0000_0000
    ensures |s| == 16
  {
    Le32(sec) + Le32(usec) + Le32(len) + Le32(len)
  }

  lemma Le32Part(a: seq<byte>, n: nat, b: seq<byte>)
    requires n < 0x1_0000_0000
    ensures Le32At(a + Le32(n) + b, |a|) == n
  {
    var s := a + Le32(n) + b;
    assert s[|a|..|a| + 4] == Le32(n);
    assert s[|a|] == s[|a|..|a| + 4][0] && s[|a| + 1] == s[|a|..|a| + 4][1];
    assert s[|a| + 2] == s[|a|..|a| + 4][2] && s[|a| + 3] == s[|a|..|a| + 4][3];
  }

  lemma RecordHeaderFields(sec: nat, usec: nat, len: nat, t: seq<byte>)
    requires sec < 0x1_0000_0000 && usec < 0x1_0000_0000 && len < 0x1_0000_0000
    ensures
      var s := RecordHeader(sec, usec, len) + t;
      && Le32At(s, 0) == sec && Le32At(s, 4) == usec && Le32At(s, 8) == len && Le32At(s, 12) == len && s[16..] == t
  {
    var s := RecordHeader(sec, usec, len) + t;
    var l := Le32(len);
    Le32Part([], sec, Le32(usec) + l + l + t);
    assert s == [] + Le32(sec) + (Le32(usec) + l + l + t);
    Le32Part(Le32(sec), usec, l + l + t);
    assert s == Le32(sec) + Le32(usec) + (l + l + t);
    Le32Part(Le32(sec) + Le32(usec), len, l + t);
    assert s == Le32(sec) + Le32(usec) + l + (l + t);
    Le32Part(Le32(sec) + Le32(usec) + l, len, t);
    assert s == Le32(sec) + Le32(usec) + l + l + t;
  }

  /** What a header says of the time is what a reader finds, wherever it cuts. */
  lemma CutTime(sec: nat, usec: nat, len: nat, t: seq<byte>)
    requires sec < 0x1_0000_0000 && usec < 0x1_0000_0000 && len < 0x1_0000_0000
    ensures
      var c := CutRecord(RecordHeader(sec, usec, len) + t);
      c.Some? ==> c.value.tsMs == sec * 1000 + usec / 1000
  {
    hide RecordHeader, Le32At;
    RecordHeaderFields(sec, usec, len, t);
  }

  /** The bytes of the file header: magic, version 2.4, no time zone, a snap length of 65535, the link type. */
  lemma HeaderBytes(link: nat)
    requires link < 0x1_0000_0000
    ensures GlobalHeader(link)[..20] == [0xd4, 0xc3, 0xb2, 0xa1, 2, 0, 4, 0, 0, 0, 0, 0, 0, 0, 0, 0, 0xff, 0xff, 0, 0]
    ensures link < 256 ==> GlobalHeader(link)[20..] == [link, 0, 0, 0]
  {
  }

  lemma VersionBytes(link: nat)
    requires link < 0x1_0000_0000
    ensures GlobalHeader(link)[4..8] == [2, 0, 4, 0]
  {
    hide GlobalHeader;
    HeaderBytes(link);
    assert GlobalHeader(link)[..20][4..8] == GlobalHeader(link)[4..8];
  }

  lemma GlobalHeaderFields(link: nat, t: seq<byte>)
    requires link < 0x1_0000_0000
    ensures
      var s := GlobalHeader(link) + t;
      Le32At(s, 0) == PCAP_MAGIC && s[4..8] == [2, 0, 4, 0] && Le32At(s, 20) == link && s[24..] == t
  {
    VersionBytes(link);
    hide Le32, Le16, Le32At;
    var s := GlobalHeader(link) + t;
    assert s[4..8] == GlobalHeader(link)[4..8];
    var mid := Le16(2) + Le16(4) + Le32(0) + Le32(0) + Le32(65535);
    Le32Part([], PCAP_MAGIC, mid + Le32(link) + t);
    assert s == [] + Le32(PCAP_MAGIC) + (mid + Le32(link) + t);
    Le32Part(Le32(PCAP_MAGIC) + mid, link, t);
    assert s == Le32(PCAP_MAGIC) + mid + Le32(link) + t;
  }

  /** The bytes of one record in a file. */
  function Record(sec: nat, usec: nat, frame: seq<byte>): (s: seq<byte>)
    requires sec < 0x1_0000_0000 && usec < 0x1_0000_0000 && |frame| < 0x1_0000_0000
    ensures |s| == 16 + |frame|
  {
    RecordHeader(sec, usec, |frame|) + frame
  }

  /** Cutting undoes writing. */
  lemma CutOfRecord(sec: nat, usec: nat, frame: seq<byte>, t: seq<byte>)
    requires sec < 0x1_0000_0000 && usec < 0x1_0000_0000 && |frame| < 0x1_0000_0000
    ensures CutRecord(Record(sec, usec, frame) + t) == Some(Cut(sec * 1000 + usec / 1000, frame, t))
  {
    var s := Record(sec, usec, frame) + t;
    assert s == RecordHeader(sec, usec, |frame|) + (frame + t);
    RecordHeaderFields(sec, usec, |frame|, frame + t);
    var end := 16 + |frame|;
    assert s[16..end] == frame && s[end..] == t;
  }
}
