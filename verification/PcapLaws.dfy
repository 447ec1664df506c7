/** The checksums in the browser's packets verify: section 3.1 of RFC 791, RFC 768, section 1 of RFC 1071. */
module PcapLaws {
  import opened Bytes
  import opened Checksum
  import opened PcapWriter

  const MAX_PAYLOAD := 65507

  /** The bytes a receiver sums for UDP: pseudo-header, header, data. */
  function UdpCovered(src: seq<byte>, dst: seq<byte>, datagram: seq<byte>): seq<byte>
    requires |datagram| < 0x1_0000
  {
    src + dst + [0, 17] + Be16(|datagram|) + datagram
  }

  lemma WordSumBe16(n: nat)
    requires n < 0x1_0000
    ensures WordSum(Be16(n)) == n
  {
    var s := Be16(n);
    assert s[2..] == [] && WordSum(s) == U16(s, 0) + WordSum([]);
  }

  /** The stored checksum enters the header's sum as itself. */
  lemma {:induction false} IpHeaderSum(total: nat, id: nat, check: nat, src: seq<byte>, dst: seq<byte>)
    requires total < 0x1_0000 && id < 0x1_0000 && check < 0x1_0000 && |src| == |dst| == 4
    ensures WordSum(IpHeader(total, id, check, src, dst)) == WordSum(IpHeader(total, id, 0, src, dst)) + check
    ensures 0 < WordSum(IpHeader(total, id, 0, src, dst)) <= 655350
  {
    var front := [0x45, 0] + Be16(total) + Be16(id) + [0x40, 0, 64, 17];
    var back := src + dst;
    HeaderSplit(front, check, back);
    HeaderSplit(front, 0, back);
    assert IpHeader(total, id, check, src, dst) == front + Be16(check) + back;
    assert IpHeader(total, id, 0, src, dst) == front + Be16(0) + back;
    assert WordSum(front) == U16(front, 0) + WordSum(front[2..]);
    WordSumBound(IpHeader(total, id, 0, src, dst));
  }

  lemma HeaderSplit(front: seq<byte>, check: nat, back: seq<byte>)
    requires |front| % 2 == 0 && check < 0x1_0000
    ensures WordSum(front + Be16(check) + back) == WordSum(front) + check + WordSum(back)
  {
    WordSumAppend(front + Be16(check), back);
    WordSumAppend(front, Be16(check));
    WordSumBe16(check);
  }

  /** The IP header checksum verifies for every payload length, identification and address. */
  lemma IpChecksumVerifies(total: nat, id: nat, src: seq<byte>, dst: seq<byte>)
    requires total < 0x1_0000 && id < 0x1_0000 && |src| == |dst| == 4
    ensures SumsToOnes(IpHeader(total, id, IpCheck(total, id, src, dst), src, dst))
    ensures WordSum(IpHeader(total, id, 0, src, dst)) < TWO31
  {
    var zero := WordSum(IpHeader(total, id, 0, src, dst));
    var check := IpCheck(total, id, src, dst);
    IpHeaderSum(total, id, check, src, dst);
    FoldJsIsCarry(zero);
    ComplementCompletes(zero, check);
  }

  /** The number the UDP loop accumulates stays below 2^31, so the 32-bit operators on it are exact. */
  lemma {:induction false} UdpSumBound(src: seq<byte>, dst: seq<byte>, sport: nat, dport: nat, raw: seq<byte>)
    requires |src| == |dst| == 4 && sport < 0x1_0000 && dport < 0x1_0000 && |raw| <= MAX_PAYLOAD
    ensures 0 < UdpSum(src, dst, sport, dport, raw) <= 2147057392 < TWO31
  {
    WordSumBound(src);
    WordSumBound(dst);
    WordSumBound(raw);
    assert |raw| % 2 == 0 ==> |raw| / 2 <= 32753;
    assert |raw| % 2 == 1 ==> |raw| / 2 <= 32753;
  }

  lemma UdpHeaderSum(sport: nat, dport: nat, len: nat, check: nat)
    requires sport < 0x1_0000 && dport < 0x1_0000 && len < 0x1_0000 && check < 0x1_0000
    ensures WordSum(UdpHeader(sport, dport, len, check)) == sport + dport + len + check
  {
    WordSumAppend(Be16(sport) + Be16(dport) + Be16(len), Be16(check));
    WordSumAppend(Be16(sport) + Be16(dport), Be16(len));
    WordSumAppend(Be16(sport), Be16(dport));
    WordSumBe16(sport);
    WordSumBe16(dport);
    WordSumBe16(len);
    WordSumBe16(check);
  }

  /** What a receiver adds up. */
  lemma {:induction false} CoveredSum(src: seq<byte>, dst: seq<byte>, sport: nat, dport: nat, check: nat, raw: seq<byte>)
    requires |src| == |dst| == 4 && sport < 0x1_0000 && dport < 0x1_0000 && check < 0x1_0000 && |raw| <= MAX_PAYLOAD
    ensures
      var len := 8 + |raw|;
      WordSum(UdpCovered(src, dst, UdpHeader(sport, dport, len, check) + raw)) == UdpSum(src, dst, sport, dport, raw) + check
  {
    var len := 8 + |raw|;
    var h := UdpHeader(sport, dport, len, check);
    var pseudo := src + dst + [0, 17] + Be16(len);
    UdpHeaderSum(sport, dport, len, check);
    WordSumAppend(h, raw);
    WordSumAppend(pseudo, h + raw);
    WordSumAppend(src + dst + [0, 17], Be16(len));
    WordSumAppend(src + dst, [0, 17]);
    WordSumAppend(src, dst);
    WordSumBe16(len);
    WordSumBe16(17);
    assert Be16(17) == [0, 17];
  }

  /** The UDP checksum verifies for every payload that fits a datagram, odd lengths included, and is never sent as zero. */
  lemma {:induction false} UdpChecksumVerifies(src: seq<byte>, dst: seq<byte>, sport: nat, dport: nat, raw: seq<byte>)
    requires |src| == |dst| == 4 && sport < 0x1_0000 && dport < 0x1_0000 && |raw| <= MAX_PAYLOAD
    ensures
      var check := UdpCheck(UdpSum(src, dst, sport, dport, raw));
      && check != 0
      && SumsToOnes(UdpCovered(src, dst, UdpHeader(sport, dport, 8 + |raw|, check) + raw))
  {
    var sum := UdpSum(src, dst, sport, dport, raw);
    var check := UdpCheck(sum);
    UdpSumBound(src, dst, sport, dport, raw);
    FoldJsIsCarry(sum);
    CoveredSum(src, dst, sport, dport, check, raw);
    ComplementCompletes(sum, check);
  }

  /** One is lost when the sum's bit 31 makes the shifted half negative and the low half brings it back above zero. */
  function Borrow(sum: nat): nat {
    if sum % 0x1_0000_0000 >= TWO31 && sum % 0x1_0000 + sum / 0x1_0000 % 0x1_0000 >= 0x1_0000 then 1 else 0
  }

  lemma SignedHalves(x: nat)
    ensures Low16(x) == x % 0x1_0000
    ensures
      var hi := x / 0x1_0000 % 0x1_0000;
      High16(x) == if x % 0x1_0000_0000 >= TWO31 then hi - 0x1_0000 else hi
  {
    hide ToInt32;
    Signed(x);
    WordHalves(x);
  }

  lemma Signed(x: nat)
    ensures
      var w := x % 0x1_0000_0000;
      ToInt32(x) == if w >= TWO31 then w - 0x1_0000_0000 else w
  {
    var w := x % 0x1_0000_0000;
    assert x == 0x1_0000_0000 * (x / 0x1_0000_0000) + w;
  }

  /** The low and the high half of a number's last 32 bits, and of that less 2^32. */
  lemma WordHalves(x: nat)
    ensures
      var w := x % 0x1_0000_0000;
      && w % 0x1_0000 == (w - 0x1_0000_0000) % 0x1_0000 == x % 0x1_0000
      && w / 0x1_0000 == x / 0x1_0000 % 0x1_0000 && (w - 0x1_0000_0000) / 0x1_0000 == w / 0x1_0000 - 0x1_0000
  {
    var w, q := x % 0x1_0000_0000, x / 0x1_0000_0000;
    assert x == 0x1_0000 * (0x1_0000 * q) + w;
    assert x / 0x1_0000 == 0x1_0000 * q + w / 0x1_0000;
  }

  /** What the 32-bit fold makes of any sum, 2^31 and beyond included. */
  lemma FoldOf(sum: nat)
    ensures
      var lo, hi := sum % 0x1_0000, sum / 0x1_0000 % 0x1_0000;
      var v := if sum % 0x1_0000_0000 >= TWO31 then lo + hi - 0x1_0000 else lo + hi;
      FoldJs(sum) == if sum <= 0xffff then sum else if v > 0xffff then v - 0xffff else v
  {
    SignedHalves(sum);
    if sum > 0xffff {
      var v := Low16(sum) + High16(sum);
      if v > 0xffff {
        SignedHalves(v);
        assert v / 0x1_0000 == 1 && v % 0x1_0000 == v - 0x1_0000;
        assert FoldJs(v) == FoldJs(v - 0xffff) == v - 0xffff;
      }
    }
  }

  lemma CheckOf(sum: nat)
    ensures
      var f := FoldJs(sum);
      -0x8000 <= f <= 0xffff ==>
        UdpCheck(sum) == if f == -1 || f == 0xffff then 0xffff else if f < 0 then -f - 1 else 0xffff - f
  {
    var f := FoldJs(sum);
    if -0x8000 <= f <= 0xffff {
      assert ToInt32(f) == f;
      assert f < 0 ==> (-f - 1) % 0x1_0000 == -f - 1;
    }
  }

  /** What is left of 65535 times something when low half, high half and checksum are added. */
  lemma HalvesAndCheck(sum: nat)
    ensures
      var d := sum % 0x1_0000 + sum / 0x1_0000 % 0x1_0000 + UdpCheck(sum) - Borrow(sum);
      d == 0xffff || d == 2 * 0xffff || d == 3 * 0xffff
  {
    hide FoldJs, UdpCheck;
    FoldOf(sum);
    CheckOf(sum);
    HighBit(sum);
  }

  lemma HighBit(x: nat)
    ensures x % 0x1_0000_0000 >= TWO31 <==> x / 0x1_0000 % 0x1_0000 >= 0x8000
    ensures x <= 0xffff ==> x % 0x1_0000 == x && x / 0x1_0000 == 0
  {
  }

  lemma {:induction false} CheckResidue(sum: nat) returns (q: int)
    ensures sum + UdpCheck(sum) == 0xffff * q + sum / 0x1_0000_0000 + Borrow(sum)
  {
    hide UdpCheck, Borrow;
    HalvesAndCheck(sum);
    var lo, hi, top := sum % 0x1_0000, sum / 0x1_0000 % 0x1_0000, sum / 0x1_0000_0000;
    assert sum == 0xffff * (hi + 0x1_0001 * top) + lo + hi + top;
    q := hi + 0x1_0001 * top + (lo + hi + UdpCheck(sum) - Borrow(sum)) / 0xffff;
  }

  /**
   Ports enter the sum whole, whatever their fields keep of them. On every sum, the 32-bit operators included, the
   checksum verifies exactly when what the ports lose is made up for by what the operators lose.
   */
  lemma {:induction false} OversizedPorts(src: seq<byte>, dst: seq<byte>, sport: nat, dport: nat, raw: seq<byte>)
    requires |src| == |dst| == 4 && |raw| <= MAX_PAYLOAD
    ensures
      var sum := UdpSum(src, dst, sport, dport, raw);
      SumsToOnes(UdpCovered(src, dst, UdpHeader(Wrap16(sport), Wrap16(dport), 8 + |raw|, UdpCheck(sum)) + raw))
      <==> (sum / 0x1_0000_0000 + Borrow(sum) - sport / 0x1_0000 - dport / 0x1_0000) % 0xffff == 0
  {
    hide WordSum, Carry, UdpCovered, UdpHeader, Borrow, UdpCheck;
    var sum := UdpSum(src, dst, sport, dport, raw);
    var check := UdpCheck(sum);
    CoveredSum(src, dst, Wrap16(sport), Wrap16(dport), check, raw);
    var small := UdpSum(src, dst, Wrap16(sport), Wrap16(dport), raw);
    var k := sport / 0x1_0000 + dport / 0x1_0000;
    assert sport == Wrap16(sport) + 0x1_0000 * (sport / 0x1_0000);
    assert dport == Wrap16(dport) + 0x1_0000 * (dport / 0x1_0000);
    assert sum == small + 0x1_0000 * k;
    var q := CheckResidue(sum);
    CarryOnes(small + check);
    SameMultiple(small + check, q - k, sum / 0x1_0000_0000 + Borrow(sum) - k);
  }

  lemma SameMultiple(a: int, q: int, r: int)
    requires a == 0xffff * q + r
    ensures a % 0xffff == 0 <==> r % 0xffff == 0
  {
    if r % 0xffff == 0 {
      assert a == 0xffff * (q + r / 0xffff);
    }
    if a % 0xffff == 0 {
      assert r == 0xffff * (a / 0xffff - q);
    }
  }

  /** Header lengths say what follows exactly when the payload fits an IPv4 datagram. */
  lemma LengthFieldsExact(raw: seq<byte>)
    ensures Wrap16(28 + |raw|) == 28 + |raw| <==> |raw| <= MAX_PAYLOAD
  {
  }

  /** The bytes of a packet that depend on nothing, and where its numbers lie. */
  lemma {:induction false} PacketBytes(src: seq<int>, dst: seq<int>, sport: int, dport: int, id: nat, raw: seq<byte>)
    requires |src| <= 4 && |dst| <= 4 && |raw| <= MAX_PAYLOAD && id < 0x1_0000
    ensures
      var p := PacketOf(src, dst, sport, dport, id, raw);
      && |p| == 42 + |raw| && p[..14] == [0, 0, 0, 0, 0, 2, 0, 0, 0, 0, 0, 1, 8, 0] && p[14..16] == [0x45, 0]
      && U16(p, 16) == 28 + |raw| && U16(p, 18) == id && p[20..24] == [0x40, 0, 64, 17] && U16(p, 38) == 8 + |raw|
      && p[42..] == raw
  {
    hide UdpCheck, IpCheck, Four, UdpSum, Be16, U16;
    var s, d, total := Four(src), Four(dst), Wrap16(28 + |raw|);
    var check := IpCheck(total, id, s, d);
    var ucheck := UdpCheck(UdpSum(s, d, sport, dport, raw));
    var ports := Be16(Wrap16(sport)) + Be16(Wrap16(dport));
    var p := PacketOf(src, dst, sport, dport, id, raw);
    Parts(
      p, ETHERNET + [0x45, 0], Be16(total), Be16(id), [0x40, 0, 64, 17], Be16(check) + s + d + ports, Be16(8 + |raw|),
      Be16(ucheck), raw);
    U16Slice(p, 16, 18, 0);
    U16Slice(p, 18, 20, 0);
    U16Slice(p, 38, 40, 0);
  }

  lemma {:induction false} Parts(
    p: seq<byte>, front: seq<byte>, total: seq<byte>, id: seq<byte>, mid: seq<byte>, x: seq<byte>, len: seq<byte>,
    check: seq<byte>, raw: seq<byte>)
    requires |front| == 16 && |total| == |id| == |len| == |check| == 2 && |mid| == 4 && |x| == 14
    requires p == front + (total + id + mid + x + len + check + raw)
    ensures p[..14] == front[..14] && p[14..16] == front[14..]
    ensures p[16..18] == total && p[18..20] == id && p[20..24] == mid && p[38..40] == len && p[42..] == raw
  {
  }

  /** Both checksums of a whole packet verify on the bytes as they lie in it. */
  lemma {:induction false} PacketVerifies(src: seq<int>, dst: seq<int>, sport: nat, dport: nat, id: int, raw: seq<byte>)
    requires |src| <= 4 && |dst| <= 4 && sport < 0x1_0000 && dport < 0x1_0000 && |raw| <= MAX_PAYLOAD
    ensures
      var p := PacketOf(src, dst, sport, dport, id, raw);
      SumsToOnes(p[14..34]) && SumsToOnes(UdpCovered(p[26..30], p[30..34], p[34..]))
  {
    var s, d, t := Four(src), Four(dst), 28 + |raw|;
    var check := IpCheck(t, Wrap16(id), s, d);
    var ucheck := UdpCheck(UdpSum(s, d, sport, dport, raw));
    PacketParts(s, d, t, Wrap16(id), check, UdpHeader(sport, dport, 8 + |raw|, ucheck), raw);
    IpChecksumVerifies(t, Wrap16(id), s, d);
    UdpChecksumVerifies(s, d, sport, dport, raw);
  }

  lemma {:induction false} PacketParts(
    s: seq<byte>, d: seq<byte>, total: nat, id: nat, check: nat, udp: seq<byte>, raw: seq<byte>)
    requires |s| == |d| == 4 && total < 0x1_0000 && id < 0x1_0000 && check < 0x1_0000
    ensures
      var p := ETHERNET + IpHeader(total, id, check, s, d) + udp + raw;
      p[14..34] == IpHeader(total, id, check, s, d) && p[26..30] == s && p[30..34] == d && p[34..] == udp + raw
  {
    SliceParts(ETHERNET, [0x45, 0] + Be16(total) + Be16(id) + [0x40, 0, 64, 17] + Be16(check), s, d, udp, raw);
  }

  lemma {:induction false} SliceParts(
    head: seq<byte>, ip: seq<byte>, s: seq<byte>, d: seq<byte>, udp: seq<byte>, raw: seq<byte>)
    requires |head| == 14 && |ip| == 12 && |s| == |d| == 4
    ensures
      var p := head + (ip + s + d) + udp + raw;
      p[14..34] == ip + s + d && p[26..30] == s && p[30..34] == d && p[34..] == udp + raw
  {
    var p := head + (ip + s + d) + udp + raw;
    assert p == head + (ip + s + d) + (udp + raw);
    assert p == (head + ip) + s + (d + udp + raw);
    assert p == (head + ip + s) + d + (udp + raw);
  }
}
