/** The browser's PCAP writer (web/static/app.js): one Ethernet/IPv4/UDP packet per captured message. */
module PcapWriter {
  import opened Bytes
  import opened Checksum

  const ETHERNET: seq<byte> := [0, 0, 0, 0, 0, 2, 0, 0, 0, 0, 0, 1, 8, 0]

  // ----- the layout -----

  function IpHeader(total: nat, id: nat, check: nat, src: seq<byte>, dst: seq<byte>): (s: seq<byte>)
    requires total < 0x1_0000 && id < 0x1_0000 && check < 0x1_0000 && |src| == |dst| == 4
    ensures |s| == 20
  {
    [0x45, 0] + Be16(total) + Be16(id) + [0x40, 0, 64, 17] + Be16(check) + src + dst
  }

  function UdpHeader(sport: nat, dport: nat, len: nat, check: nat): (s: seq<byte>)
    requires sport < 0x1_0000 && dport < 0x1_0000 && len < 0x1_0000 && check < 0x1_0000
    ensures |s| == 8
  {
    Be16(sport) + Be16(dport) + Be16(len) + Be16(check)
  }

  /** What setUint16 keeps of a number. */
  function Wrap16(x: int): (r: nat)
    ensures r < 0x1_0000
    ensures 0 <= x < 0x1_0000 ==> r == x
  {
    x % 0x1_0000
  }

  /** What a byte array keeps of a list of at most four numbers. */
  function Four(parts: seq<int>): (q: seq<byte>)
    requires |parts| <= 4
    ensures |q| == 4 && forall i :: 0 <= i < 4 ==> q[i] == if i < |parts| then parts[i] % 256 else 0
  {
    seq(4, i requires 0 <= i < 4 => if i < |parts| then parts[i] % 256 else 0)
  }

  /** The checksum stored in the IP header: the complement of the folded sum with a zero in its place. */
  function IpCheck(total: nat, id: nat, src: seq<byte>, dst: seq<byte>): (c: nat)
    requires total < 0x1_0000 && id < 0x1_0000 && |src| == |dst| == 4
    ensures c < 0x1_0000
  {
    NotLow16(FoldJs(WordSum(IpHeader(total, id, 0, src, dst))))
  }

  /** The number accumulated for the UDP checksum; the ports enter it unwrapped. */
  function UdpSum(src: seq<byte>, dst: seq<byte>, sport: int, dport: int, raw: seq<byte>): int {
    WordSum(src) + WordSum(dst) + 17 + 2 * (8 + |raw|) + sport + dport + WordSum(raw)
  }

  function UdpCheck(sum: int): (c: nat)
    ensures c < 0x1_0000
  {
    var c := NotLow16(FoldJs(sum));
    if c == 0 then 0xffff else c
  }

  function PacketOf(src: seq<int>, dst: seq<int>, sport: int, dport: int, id: int, raw: seq<byte>): (p: seq<byte>)
    requires |src| <= 4 && |dst| <= 4
    ensures |p| == 42 + |raw|
  {
    var s, d, total := Four(src), Four(dst), Wrap16(28 + |raw|);
    ETHERNET
    + IpHeader(total, Wrap16(id), IpCheck(total, Wrap16(id), s, d), s, d)
    + UdpHeader(Wrap16(sport), Wrap16(dport), Wrap16(8 + |raw|), UdpCheck(UdpSum(s, d, sport, dport, raw)))
    + raw
  }

  // ----- writing in place -----

  /** The first bytes of `a` are `done` and everything behind them is still zero. */
  ghost predicate Filled(a: array<byte>, done: seq<byte>)
    reads a
  {
    |done| <= a.Length && a[..|done|] == done && forall j :: |done| <= j < a.Length ==> a[j] == 0
  }

  /** DataView.setUint16, big-endian, right behind what is filled. */
  method PushUint16(a: array<byte>, at: nat, v: int, ghost done: seq<byte>)
    requires at == |done| && at + 2 <= a.Length && Filled(a, done)
    modifies a
    ensures Filled(a, done + Be16(Wrap16(v)))
  {
    a[at] := Wrap16(v) / 256;
    a[at + 1] := v % 256;
    assert (v % 0x1_0000) % 256 == v % 256;
    assert a[..at + 2] == a[..at] + [a[at], a[at + 1]];
  }

  method PushBytes(a: array<byte>, at: nat, s: seq<byte>, ghost done: seq<byte>)
    requires at == |done| && at + |s| <= a.Length && Filled(a, done)
    modifies a
    ensures Filled(a, done + s)
  {
    for i := 0 to |s|
      invariant Filled(a, done + s[..i])
    {
      a[at + i] := s[i];
      assert a[..at + i + 1] == a[..at + i] + [s[i]];
      assert done + s[..i + 1] == done + s[..i] + [s[i]];
    }
    assert s[..|s|] == s;
  }

  /** The address loop: at most four numbers, each stored as a byte where zeros were. */
  method PushAddress(a: array<byte>, at: nat, parts: seq<int>, ghost done: seq<byte>)
    requires at == |done| && |parts| <= 4 && at + 4 <= a.Length && Filled(a, done)
    modifies a
    ensures Filled(a, done + Four(parts))
  {
    for i := 0 to |parts|
      invariant a[..at] == done
      invariant forall j :: at <= j < a.Length ==> a[j] == if j < at + i then parts[j - at] % 256 else 0
    {
      a[at + i] := parts[i] % 256;
    }
    assert a[..at + 4] == a[..at] + [a[at], a[at + 1], a[at + 2], a[at + 3]];
    assert [a[at], a[at + 1], a[at + 2], a[at + 3]] == Four(parts);
  }

  /** Overwrites two bytes inside what is filled. */
  method PatchUint16(a: array<byte>, at: nat, v: nat, ghost done: seq<byte>)
    requires at + 2 <= |done| && Filled(a, done) && v < 0x1_0000
    modifies a
    ensures Filled(a, done[..at] + Be16(v) + done[at + 2..])
  {
    a[at] := v / 256;
    a[at + 1] := v % 256;
    ghost var next := done[..at] + Be16(v) + done[at + 2..];
    assert forall j :: 0 <= j < |done| ==> a[j] == next[j];
    assert a[..|done|] == next;
  }

  /** The summing loop over the IP header, word by word from the array. */
  method SumHeader(a: array<byte>, from: nat) returns (sum: nat)
    requires from + 20 <= a.Length
    ensures sum == WordSum(a[from..from + 20])
  {
    sum := 0;
    var i := 0;
    ghost var h := a[from..from + 20];
    assert h[..0] == [];
    while i < 20
      invariant 0 <= i <= 20 && i % 2 == 0
      invariant sum == WordSum(h[..i])
    {
      WordSumSnoc(h, i);
      assert U16(h, i) == 256 * a[from + i] as int + a[from + i + 1] as int;
      sum := sum + 256 * a[from + i] as int + a[from + i + 1] as int;
      i := i + 2;
    }
    assert h[..20] == h;
  }

  /** The payload loop: full words, then an odd last byte shifted up. */
  method SumPayload(raw: seq<byte>) returns (sum: nat)
    ensures sum == WordSum(raw)
  {
    sum := 0;
    var i := 0;
    while i < |raw| - 1
      invariant 0 <= i <= |raw| && i % 2 == 0
      invariant sum == WordSum(raw[..i])
    {
      WordSumSnoc(raw, i);
      sum := sum + 256 * raw[i] as int + raw[i + 1] as int;
      i := i + 2;
    }
    if |raw| % 2 == 1 {
      sum := sum + 256 * raw[|raw| - 1] as int;
      WordSumAppend(raw[..i], [raw[i]]);
      assert raw == raw[..i] + [raw[i]];
    } else {
      assert raw[..i] == raw;
    }
  }

  /** The IPv4 header behind the Ethernet header, checksum last. */
  method WriteIpHeader(a: array<byte>, src: seq<int>, dst: seq<int>, total: nat, id: int)
    requires |src| <= 4 && |dst| <= 4 && a.Length >= 34 && Filled(a, ETHERNET)
    modifies a
    ensures
      var s, d, t := Four(src), Four(dst), Wrap16(total);
      Filled(a, ETHERNET + IpHeader(t, Wrap16(id), IpCheck(t, Wrap16(id), s, d), s, d))
  {
    ghost var done := ETHERNET;
    PushBytes(a, 14, [0x45, 0], done);
    done := done + [0x45, 0];
    PushUint16(a, 16, total, done);
    done := done + Be16(Wrap16(total));
    PushUint16(a, 18, id, done);
    done := done + Be16(Wrap16(id));
    PushBytes(a, 20, [0x40, 0, 64, 17], done);
    done := done + [0x40, 0, 64, 17];
    assert a[..26] == a[..24] + [0, 0];
    done := done + Be16(0);
    PushAddress(a, 26, src, done);
    done := done + Four(src);
    PushAddress(a, 30, dst, done);
    done := done + Four(dst);
    ghost var h := IpHeader(Wrap16(total), Wrap16(id), 0, Four(src), Four(dst));
    HeaderPieces(Wrap16(total), Wrap16(id), 0, Four(src), Four(dst));
    assert done == ETHERNET + h;
    assert a[14..34] == a[..34][14..] == h;
    var cksum := SumHeader(a, 14);
    cksum := Fold(cksum);
    PatchUint16(a, 24, NotLow16(cksum), done);
    HeaderPatch(Wrap16(total), Wrap16(id), NotLow16(cksum), Four(src), Four(dst));
  }

  lemma {:induction false} HeaderPieces(total: nat, id: nat, check: nat, src: seq<byte>, dst: seq<byte>)
    requires total < 0x1_0000 && id < 0x1_0000 && check < 0x1_0000 && |src| == |dst| == 4
    ensures ETHERNET + IpHeader(total, id, check, src, dst) ==
      ETHERNET + [0x45, 0] + Be16(total) + Be16(id) + [0x40, 0, 64, 17] + Be16(check) + src + dst
  {
  }

  lemma {:induction false} HeaderPatch(total: nat, id: nat, check: nat, src: seq<byte>, dst: seq<byte>)
    requires total < 0x1_0000 && id < 0x1_0000 && check < 0x1_0000 && |src| == |dst| == 4
    ensures
      var plain := ETHERNET + IpHeader(total, id, 0, src, dst);
      plain[..24] + Be16(check) + plain[26..] == ETHERNET + IpHeader(total, id, check, src, dst)
  {
  }

  /** The packet of one message. */
  method BuildPacket(src: seq<int>, dst: seq<int>, sport: int, dport: int, id: int, raw: seq<byte>) returns (pkt: array<byte>)
    requires |src| <= 4 && |dst| <= 4
    ensures fresh(pkt) && pkt[..] == PacketOf(src, dst, sport, dport, id, raw)
  {
    var udpLen := 8 + |raw|;
    var ipLen := 20 + udpLen;
    pkt := new byte[14 + ipLen](_ => 0);
    assert pkt[..0] == [];
    PushBytes(pkt, 0, ETHERNET, []);
    assert [] + ETHERNET == ETHERNET;
    WriteIpHeader(pkt, src, dst, ipLen, id);
    ghost var s, d, t := Four(src), Four(dst), Wrap16(ipLen);
    ghost var head := ETHERNET + IpHeader(t, Wrap16(id), IpCheck(t, Wrap16(id), s, d), s, d);
    WriteUdp(pkt, src, dst, sport, dport, raw, head);
  }

  method WriteUdp(a: array<byte>, src: seq<int>, dst: seq<int>, sport: int, dport: int, raw: seq<byte>, ghost head: seq<byte>)
    requires |src| <= 4 && |dst| <= 4 && |head| == 34 && a.Length == 42 + |raw| && Filled(a, head)
    requires head[26..30] == Four(src) && head[30..34] == Four(dst)
    modifies a
    ensures
      var sum := UdpSum(Four(src), Four(dst), sport, dport, raw);
      a[..] == head + UdpHeader(Wrap16(sport), Wrap16(dport), Wrap16(8 + |raw|), UdpCheck(sum)) + raw
  {
    hide Be16, Four, FoldJs, WordSum, Wrap16;
    var udpLen := 8 + |raw|;
    ghost var done := head;
    PushUint16(a, 34, sport, done);
    done := done + Be16(Wrap16(sport));
    PushUint16(a, 36, dport, done);
    done := done + Be16(Wrap16(dport));
    PushUint16(a, 38, udpLen, done);
    done := done + Be16(Wrap16(udpLen));
    var usum: int := SumAddress(a, 26, done, Four(src));
    var more := SumAddress(a, 30, done, Four(dst));
    usum := usum + more + 17 + udpLen;
    usum := usum + sport + dport + udpLen;
    var payload := SumPayload(raw);
    usum := usum + payload;
    var folded := Fold(usum);
    var udpCk := NotLow16(folded);
    udpCk := if udpCk == 0 then 0xffff else udpCk;
    PushUint16(a, 40, udpCk, done);
    done := done + Be16(udpCk);
    PushBytes(a, 42, raw, done);
    assert done == head + UdpHeader(Wrap16(sport), Wrap16(dport), Wrap16(udpLen), udpCk);
    assert a[..] == a[..|done + raw|] == done + raw;
  }

  /** Two header words read back from the array. */
  method SumAddress(a: array<byte>, at: nat, ghost done: seq<byte>, ghost q: seq<byte>) returns (sum: nat)
    requires |q| == 4 && at + 4 <= |done| && Filled(a, done) && done[at..at + 4] == q
    ensures sum == WordSum(q)
  {
    assert a[at..at + 4] == a[..|done|][at..at + 4] == q;
    assert a[at] == q[0] && a[at + 1] == q[1] && a[at + 2] == q[2] && a[at + 3] == q[3];
    sum := 256 * a[at] as int + a[at + 1] as int + 256 * a[at + 2] as int + a[at + 3] as int;
    assert q[2..][2..] == [] && WordSum(q[2..]) == U16(q[2..], 0) + WordSum([]);
    assert WordSum(q) == U16(q, 0) + WordSum(q[2..]);
  }
}
