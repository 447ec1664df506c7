/**
 The HEP3 packet codec: the decoder of core-go/hep.go and the encoder of scripts/send_hep.py.

 A packet is the magic, its total length, and a list of chunks (vendor, type, length, data).
 Go strings taken from a packet are byte strings and stay byte sequences here; the printed
 addresses are text.
 */
module HepCodec {
  import opened Bytes
  import opened Text
  import opened HepStream

  datatype HepInfo = HepInfo(
    ok: bool, version: byte, ipProto: byte, srcIp: string, dstIp: string, srcPort: nat, dstPort: nat,
    tSec: nat, tUsec: nat, protoType: byte, nodeId: nat, nodePw: seq<byte>, nodeName: seq<byte>,
    correlationId: seq<byte>, payload: seq<byte>)

  const NO_INFO := HepInfo(false, 0, 0, "", "", 0, 0, 0, 0, 0, 0, [], [], [], [])

  datatype Chunk = Chunk(vendor: nat, kind: nat, data: seq<byte>)

  // ----- printed addresses -----

  function Ipv4Text(d: seq<byte>): string
    requires |d| >= 4
  {
    NatText(d[0]) + "." + NatText(d[1]) + "." + NatText(d[2]) + "." + NatText(d[3])
  }

  /** Lower-case hexadecimal without leading zeros, as the %x verb prints it. */
  function HexText(n: nat): (s: string)
    ensures |s| > 0
  {
    if n < 16 then [HexDigit(n)] else HexText(n / 16) + [HexDigit(n % 16)]
  }

  /** Eight groups in hexadecimal, never compressed. */
  function Ipv6Text(d: seq<byte>): string
    requires |d| >= 16
  {
    Join(seq(8, i requires 0 <= i < 8 => HexText(U16(d, 2 * i))), ':')
  }

  // ----- decoding -----

  function TrimRightNul(s: seq<byte>): (r: seq<byte>)
    ensures r <= s && (r == [] || r[|r| - 1] != 0)
    ensures forall i :: |r| <= i < |s| ==> s[i] == 0
  {
    if s != [] && s[|s| - 1] == 0 then TrimRightNul(s[..|s| - 1]) else s
  }

  /** What one chunk does to the fields collected so far. */
  function Apply(info: HepInfo, c: Chunk): HepInfo {
    var d := c.data;
    match c.kind
    case 1 => if |d| >= 1 then info.(ipProto := d[0]) else info
    case 3 => if |d| >= 4 then info.(srcIp := Ipv4Text(d)) else info
    case 4 => if |d| >= 4 then info.(dstIp := Ipv4Text(d)) else info
    case 5 => if |d| >= 16 then info.(srcIp := Ipv6Text(d)) else info
    case 6 => if |d| >= 16 then info.(dstIp := Ipv6Text(d)) else info
    case 7 => if |d| >= 2 then info.(srcPort := U16(d, 0)) else info
    case 8 => if |d| >= 2 then info.(dstPort := U16(d, 0)) else info
    case 9 => if |d| >= 4 then info.(tSec := U32(d, 0)) else info
    case 10 => if |d| >= 4 then info.(tUsec := U32(d, 0)) else info
    case 11 => if |d| >= 1 then info.(protoType := d[0]) else info
    case 12 =>
      if |d| >= 4 then info.(nodeId := U32(d, 0))
      else if |d| >= 2 then info.(nodeId := U16(d, 0))
      else info
    case 14 => info.(nodePw := d)
    case 15 => info.(payload := d)
    case 17 => info.(correlationId := d)
    case 19 => info.(nodeName := TrimRightNul(d))
    case _ => info
  }

  function ApplyAll(info: HepInfo, cs: seq<Chunk>): HepInfo
    decreases |cs|
  {
    if cs == [] then info else ApplyAll(Apply(info, cs[0]), cs[1..])
  }

  /** The chunks at the front of `body`, up to the first that is truncated or announces less than its header. */
  function Chunks(body: seq<byte>): seq<Chunk> {
    if |body| < 6 || U16(body, 4) < 6 || U16(body, 4) > |body| then []
    else [Chunk(U16(body, 0), U16(body, 2), body[6..U16(body, 4)])] + Chunks(body[U16(body, 4)..])
  }

  function Seal(info: HepInfo): HepInfo {
    info.(ok := |info.payload| > 0 || info.protoType > 0, version := 3)
  }

  /** The part of a packet its own length field covers, clipped to what was received. */
  function Covered(pkt: seq<byte>): nat
    requires |pkt| >= 6
  {
    if U16(pkt, 4) > |pkt| then |pkt| else U16(pkt, 4)
  }

  function Decode(pkt: seq<byte>): HepInfo {
    if |pkt| < 6 || !HasMagic(pkt) then NO_INFO
    else if Covered(pkt) < 6 then Seal(NO_INFO)
    else Seal(ApplyAll(NO_INFO, Chunks(pkt[6..Covered(pkt)])))
  }

  /** What the chunks between `offset` and `end` make of `info`. */
  function Finish(info: HepInfo, pkt: seq<byte>, offset: nat, end: nat): HepInfo
    requires offset <= end <= |pkt|
  {
    ApplyAll(info, Chunks(pkt[offset..end]))
  }

  /** Reading one chunk header in place is unfolding `Chunks` once. */
  lemma FinishStep(info: HepInfo, pkt: seq<byte>, offset: nat, end: nat)
    requires offset <= end <= |pkt|
    ensures
      Finish(info, pkt, offset, end) ==
      if offset + 6 > end || U16(pkt, offset + 4) < 6 || offset + U16(pkt, offset + 4) > end then info
      else
        var n := U16(pkt, offset + 4);
        Finish(Apply(info, Chunk(U16(pkt, offset), U16(pkt, offset + 2), pkt[offset + 6..offset + n])), pkt, offset + n, end)
  {
    var left := pkt[offset..end];
    if offset + 6 <= end {
      var n := U16(pkt, offset + 4);
      assert U16(left, 4) == n;
      if 6 <= n <= |left| {
        ChunksStep(pkt, offset, end);
        ApplyAllCons(info, Chunk(U16(pkt, offset), U16(pkt, offset + 2), pkt[offset + 6..offset + n]), Chunks(pkt[offset + n..end]));
      } else {
        assert Chunks(left) == [];
      }
    }
  }

  lemma ChunksStep(pkt: seq<byte>, offset: nat, end: nat)
    requires offset + 6 <= end <= |pkt|
    requires var n := U16(pkt, offset + 4); 6 <= n <= end - offset
    ensures
      var n := U16(pkt, offset + 4);
      Chunks(pkt[offset..end]) ==
        [Chunk(U16(pkt, offset), U16(pkt, offset + 2), pkt[offset + 6..offset + n])] + Chunks(pkt[offset + n..end])
  {
    hide U16;
    var left := pkt[offset..end];
    var n := U16(pkt, offset + 4);
    U16Slice(pkt, offset, end, 0);
    U16Slice(pkt, offset, end, 2);
    U16Slice(pkt, offset, end, 4);
    SliceOfSlice(pkt, offset, end, 6, n);
    SliceOfSlice(pkt, offset, end, n, |left|);
    assert left[n..] == left[n..|left|];
  }

  lemma ApplyAllCons(info: HepInfo, c: Chunk, cs: seq<Chunk>)
    ensures ApplyAll(info, [c] + cs) == ApplyAll(Apply(info, c), cs)
  {
    assert ([c] + cs)[1..] == cs;
  }

  /** The switch of the decoding loop: overwrites the field a chunk carries. */
  method Overwrite(before: HepInfo, chunkType: nat, data: seq<byte>, ghost vendor: nat) returns (info: HepInfo)
    ensures info == Apply(before, Chunk(vendor, chunkType, data))
  {
    info := before;
    match chunkType {
      case 1 => if |data| >= 1 { info := info.(ipProto := data[0]); }
      case 3 => if |data| >= 4 { info := info.(srcIp := Ipv4Text(data)); }
      case 4 => if |data| >= 4 { info := info.(dstIp := Ipv4Text(data)); }
      case 5 => if |data| >= 16 { info := info.(srcIp := Ipv6Text(data)); }
      case 6 => if |data| >= 16 { info := info.(dstIp := Ipv6Text(data)); }
      case 7 => if |data| >= 2 { info := info.(srcPort := U16(data, 0)); }
      case 8 => if |data| >= 2 { info := info.(dstPort := U16(data, 0)); }
      case 9 => if |data| >= 4 { info := info.(tSec := U32(data, 0)); }
      case 10 => if |data| >= 4 { info := info.(tUsec := U32(data, 0)); }
      case 11 => if |data| >= 1 { info := info.(protoType := data[0]); }
      case 12 =>
        if |data| >= 4 {
          info := info.(nodeId := U32(data, 0));
        } else if |data| >= 2 {
          info := info.(nodeId := U16(data, 0));
        }
      case 14 => info := info.(nodePw := data);
      case 15 => info := info.(payload := data);
      case 17 => info := info.(correlationId := data);
      case 19 => info := info.(nodeName := TrimRightNul(data));
      case _ =>
    }
  }

  /** The decoder: one pass over the packet, overwriting fields as chunks go by. */
  method HepDecode(pkt: seq<byte>) returns (info: HepInfo)
    ensures info == Decode(pkt)
  {
    info := NO_INFO;
    if |pkt| < 6 {
      return;
    }
    MagicAt(pkt, 0);
    assert pkt[0..] == pkt;
    if pkt[0] != 72 || pkt[1] != 69 || pkt[2] != 80 || pkt[3] != 51 {
      return;
    }
    var totalLen := U16(pkt, 4);
    if totalLen > |pkt| {
      totalLen := |pkt|;
    }
    if totalLen < 6 {
      info := Seal(info);
      return;
    }
    info := DecodeChunks(pkt, totalLen);
    info := Seal(info);
  }

  /** The chunk loop. */
  method DecodeChunks(pkt: seq<byte>, totalLen: nat) returns (info: HepInfo)
    requires 6 <= totalLen <= |pkt|
    ensures info == Finish(NO_INFO, pkt, 6, totalLen)
  {
    hide Finish, Apply;
    info := NO_INFO;
    var offset := 6;
    while offset + 6 <= totalLen
      invariant 6 <= offset <= totalLen
      invariant Finish(info, pkt, offset, totalLen) == Finish(NO_INFO, pkt, 6, totalLen)
      decreases totalLen - offset
    {
      FinishStep(info, pkt, offset, totalLen);
      var chunkType := U16(pkt, offset + 2);
      var chunkLen := U16(pkt, offset + 4);
      if chunkLen < 6 || offset + chunkLen > totalLen {
        break;
      }
      info := Overwrite(info, chunkType, pkt[offset + 6..offset + chunkLen], U16(pkt, offset));
      offset := offset + chunkLen;
    }
    FinishStep(info, pkt, offset, totalLen);
  }
}
