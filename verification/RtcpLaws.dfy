/** What the RTCP walker finds in a well-formed compound packet, and what its summary says of the blocks. */
module RtcpLaws {
  import opened Bytes
  import opened Text
  import opened Mos
  import opened Rtcp

  // ----- compound packets (sections 6.1, 6.4.1 and 6.4.2 of RFC 3550) -----

  /** A member of a compound: sender info is 20 bytes, `tail` a profile extension; `pad` is the padding bit. */
  datatype Packet =
    | Sender(pad: bool, ssrc: seq<byte>, info: seq<byte>, blocks: seq<RawBlock>, tail: seq<byte>)
    | Receiver(pad: bool, ssrc: seq<byte>, blocks: seq<RawBlock>, tail: seq<byte>)
    | Other(pad: bool, count: nat, pt: byte, body: seq<byte>)

  function Flat(blocks: seq<RawBlock>): (s: seq<byte>)
    ensures |s| == BLOCK_SIZE * |blocks|
  {
    if blocks == [] then [] else blocks[0] + Flat(blocks[1..])
  }

  /** Everything behind the first four bytes, up to the blocks. */
  function Front(m: Packet): seq<byte> {
    match m
    case Sender(_, ssrc, info, _, _) => ssrc + info
    case Receiver(_, ssrc, _, _) => ssrc
    case Other(_, _, _, body) => body
  }

  function Blocks(m: Packet): seq<RawBlock> {
    if m.Other? then [] else m.blocks
  }

  function Tail(m: Packet): seq<byte> {
    if m.Other? then [] else m.tail
  }

  function Body(m: Packet): seq<byte> {
    Front(m) + Flat(Blocks(m)) + Tail(m)
  }

  function TypeOf(m: Packet): byte {
    match m case Sender(_, _, _, _, _) => 200 case Receiver(_, _, _, _) => 201 case Other(_, _, pt, _) => pt
  }

  function CountOf(m: Packet): nat {
    if m.Other? then m.count else |m.blocks|
  }

  predicate WellFormed(m: Packet) {
    && CountOf(m) < 32 && |Body(m)| % 4 == 0 && |Body(m)| / 4 < 0x1_0000
    && (m.Sender? ==> |m.ssrc| == 4 && |m.info| == 20)
    && (m.Receiver? ==> |m.ssrc| == 4)
    && (m.Other? ==> !HasBlocks(m.pt))
  }

  function Header(pad: bool, count: nat, pt: byte, words: nat): (h: seq<byte>)
    requires count < 32 && words < 0x1_0000
    ensures |h| == 4
  {
    [128 + (if pad then 32 else 0) + count, pt] + Be16(words)
  }

  function EncodePacket(m: Packet): seq<byte>
    requires WellFormed(m)
  {
    Header(m.pad, CountOf(m), TypeOf(m), |Body(m)| / 4) + Body(m)
  }

  function EncodeAll(ms: seq<Packet>): seq<byte>
    requires forall m :: m in ms ==> WellFormed(m)
  {
    if ms == [] then [] else EncodePacket(ms[0]) + EncodeAll(ms[1..])
  }

  /** The report blocks of all members, in order. */
  function AllBlocks(ms: seq<Packet>): seq<RawBlock> {
    if ms == [] then [] else Blocks(ms[0]) + AllBlocks(ms[1..])
  }

  lemma {:induction false} FlatBack(pre: seq<byte>, blocks: seq<RawBlock>, post: seq<byte>)
    ensures BlocksFrom(pre + Flat(blocks) + post, |pre|, |blocks|) == blocks
    decreases |blocks|
  {
    if blocks != [] {
      var p := pre + Flat(blocks) + post;
      var b := blocks[0];
      assert p == (pre + b) + Flat(blocks[1..]) + post;
      assert p[|pre|..|pre| + BLOCK_SIZE] == b;
      FlatBack(pre + b, blocks[1..], post);
      assert [b] + blocks[1..] == blocks;
    }
  }

  lemma {:induction false} HeaderReads(pre: seq<byte>, pad: bool, count: nat, pt: byte, words: nat, post: seq<byte>)
    requires count < 32 && words < 0x1_0000
    ensures
      var p := pre + Header(pad, count, pt, words) + post;
      && Version(p[|pre|]) == 2 && Count(p[|pre|]) == count && p[|pre| + 1] == pt
      && NextPacket(p, |pre|) == |pre| + 4 + 4 * words
  {
    var p := pre + Header(pad, count, pt, words) + post;
    assert p[|pre| + 2] == Be16(words)[0] && p[|pre| + 3] == Be16(words)[1];
  }

  lemma BodyBlocks(pre: seq<byte>, m: Packet, post: seq<byte>)
    requires !m.Other?
    ensures BlocksFrom(pre + Body(m) + post, |pre| + |Front(m)|, |m.blocks|) == m.blocks
  {
    FlatBack(pre + Front(m), m.blocks, Tail(m) + post);
    Regroup(pre, Front(m), Flat(m.blocks), Tail(m), post);
  }

  lemma {:induction false} Regroup(a: seq<byte>, b: seq<byte>, c: seq<byte>, d: seq<byte>, e: seq<byte>)
    ensures a + (b + c + d) + e == (a + b) + c + (d + e)
  {
  }

  /** At the start of a member the walker takes its blocks and goes on behind it. */
  lemma PacketReads(pre: seq<byte>, m: Packet, post: seq<byte>)
    requires WellFormed(m)
    ensures
      var p := pre + EncodePacket(m) + post;
      && Version(p[|pre|]) == 2 && PacketBlocks(p, |pre|) == Blocks(m)
      && NextPacket(p, |pre|) == |pre| + |EncodePacket(m)|
  {
    var h := Header(m.pad, CountOf(m), TypeOf(m), |Body(m)| / 4);
    var p := pre + EncodePacket(m) + post;
    HeaderReads(pre, m.pad, CountOf(m), TypeOf(m), |Body(m)| / 4, Body(m) + post);
    HeaderFirst(pre, h, Body(m), post);
    if !m.Other? {
      BodyBlocks(pre + h, m, post);
    }
  }

  lemma HeaderFirst(pre: seq<byte>, h: seq<byte>, body: seq<byte>, post: seq<byte>)
    ensures pre + (h + body) + post == pre + h + (body + post) == pre + h + body + post
  {
  }

  lemma WalkOne(pre: seq<byte>, m: Packet, rest: seq<byte>, bs: seq<RawBlock>)
    requires WellFormed(m) && Walk(pre + EncodePacket(m) + rest, |pre + EncodePacket(m)|) == bs
    ensures Walk(pre + (EncodePacket(m) + rest), |pre|) == Blocks(m) + bs
  {
    hide EncodePacket, Blocks, PacketBlocks, NextPacket;
    PacketReads(pre, m, rest);
    assert pre + (EncodePacket(m) + rest) == pre + EncodePacket(m) + rest;
  }

  lemma {:induction false} WalkFinds(pre: seq<byte>, ms: seq<Packet>)
    requires forall m :: m in ms ==> WellFormed(m)
    ensures Walk(pre + EncodeAll(ms), |pre|) == AllBlocks(ms)
    decreases |ms|
  {
    if ms == [] {
      assert pre + EncodeAll(ms) == pre;
    } else {
      assert WellFormed(ms[0]);
      WalkFinds(pre + EncodePacket(ms[0]), ms[1..]);
      WalkOne(pre, ms[0], EncodeAll(ms[1..]), AllBlocks(ms[1..]));
    }
  }

  lemma {:induction false} NoBlocksInShort(ms: seq<Packet>)
    requires forall m :: m in ms ==> WellFormed(m)
    ensures AllBlocks(ms) != [] ==> |EncodeAll(ms)| >= 32
  {
    if ms != [] {
      NoBlocksInShort(ms[1..]);
      assert WellFormed(ms[0]);
    }
  }

  /** For every well-formed compound: exactly the report blocks of its sender and receiver reports, in order, summarised. */
  lemma CompoundReport(ms: seq<Packet>)
    requires forall m :: m in ms ==> WellFormed(m)
    ensures Qos(EncodeAll(ms)) ==
      if AllBlocks(ms) == [] then None else Some(Summary(ReadAll(AllBlocks(ms), BlockOf)))
  {
    WalkFinds([], ms);
    NoBlocksInShort(ms);
    assert [] + EncodeAll(ms) == EncodeAll(ms);
  }

  /** A report block as section 6.4.1 of RFC 3550 lays it out; the jitter is in timestamp units of 8 kHz. */
  datatype ReportBlock = ReportBlock(
    ssrc: nat, fraction: nat, lost: seq<byte>, highestSeq: nat, jitter: nat, lastSr: nat, delay: nat)

  predicate Fits(b: ReportBlock) {
    && b.ssrc < 0x1_0000_0000 && b.fraction < 256 && |b.lost| == 3 && b.highestSeq < 0x1_0000_0000
    && b.jitter < 0x1_0000_0000 && b.lastSr < 0x1_0000_0000 && b.delay < 0x1_0000_0000
  }

  function EncodeBlock(b: ReportBlock): (s: RawBlock)
    requires Fits(b)
  {
    Be32(b.ssrc) + ([b.fraction] + b.lost) + Be32(b.highestSeq) + Be32(b.jitter) + Be32(b.lastSr) + Be32(b.delay)
  }

  lemma FieldAt(a: seq<byte>, n: nat, b: seq<byte>)
    requires n < 0x1_0000_0000
    ensures U32(a + Be32(n) + b, |a|) == n
  {
    var s := a + Be32(n) + b;
    assert s[|a|..|a| + 4] == Be32(n);
    assert s[|a|] == Be32(n)[0] && s[|a| + 1] == Be32(n)[1] && s[|a| + 2] == Be32(n)[2] && s[|a| + 3] == Be32(n)[3];
  }

  /** The walker takes source, loss and jitter from where the RFC puts them, in per cent and milliseconds. */
  lemma BlockReads(b: ReportBlock)
    requires Fits(b)
    ensures
      var lost, jitterMs := b.fraction as real * 100.0 / 256.0, b.jitter as real / 8.0;
      BlockOf(EncodeBlock(b)) == Block(b.ssrc, lost, jitterMs, MosX10(jitterMs, lost))
  {
    var s := EncodeBlock(b);
    var quarter := [b.fraction] + b.lost;
    var tail := Be32(b.lastSr) + Be32(b.delay);
    FieldAt([], b.ssrc, quarter + Be32(b.highestSeq) + Be32(b.jitter) + tail);
    assert s == [] + Be32(b.ssrc) + (quarter + Be32(b.highestSeq) + Be32(b.jitter) + tail);
    FieldAt(Be32(b.ssrc) + quarter + Be32(b.highestSeq), b.jitter, tail);
    assert s == Be32(b.ssrc) + quarter + Be32(b.highestSeq) + Be32(b.jitter) + tail;
    BlockFrom(s, b.ssrc, b.fraction, b.jitter);
  }

  lemma BlockFrom(s: RawBlock, ssrc: nat, fraction: nat, jitter: nat)
    requires U32(s, 0) == ssrc && s[4] as int == fraction && U32(s, 12) == jitter
    ensures
      var lost, jitterMs := fraction as real * 100.0 / 256.0, jitter as real / 8.0;
      BlockOf(s) == Block(ssrc, lost, jitterMs, MosX10(jitterMs, lost))
  {
    assert fraction as real / 256.0 * 100.0 == fraction as real * 100.0 / 256.0;
  }

  // ----- what the summary says -----

  lemma {:induction false} MaxJitterIs(bs: seq<Block>)
    ensures forall b :: b in bs ==> b.jitterMs <= MaxJitter(bs)
    ensures MaxJitter(bs) >= 0.0 && (MaxJitter(bs) > 0.0 ==> exists b :: b in bs && b.jitterMs == MaxJitter(bs))
  {
    if bs != [] {
      MaxJitterIs(bs[..|bs| - 1]);
      assert bs == bs[..|bs| - 1] + [bs[|bs| - 1]];
    }
  }

  lemma {:induction false} MaxLossIs(bs: seq<Block>)
    ensures forall b :: b in bs ==> b.fractionLost <= MaxLoss(bs)
    ensures MaxLoss(bs) >= 0.0 && (MaxLoss(bs) > 0.0 ==> exists b :: b in bs && b.fractionLost == MaxLoss(bs))
  {
    if bs != [] {
      MaxLossIs(bs[..|bs| - 1]);
      assert bs == bs[..|bs| - 1] + [bs[|bs| - 1]];
    }
  }

  lemma {:induction false} WorstMosIs(bs: seq<Block>)
    ensures forall b :: b in bs ==> WorstMos(bs) <= b.mos
    ensures WorstMos(bs) == 50 || exists b :: b in bs && b.mos == WorstMos(bs)
  {
    if bs != [] {
      WorstMosIs(bs[..|bs| - 1]);
      assert bs == bs[..|bs| - 1] + [bs[|bs| - 1]];
    }
  }

  /** A block scored by its own jitter and loss. */
  predicate Scored(b: Block) {
    b.jitterMs >= 0.0 && b.fractionLost >= 0.0 && b.mos == MosX10(b.jitterMs, b.fractionLost)
  }

  /** The summary is no better than any block: its R factor, the MOS of its two maxima, and the worst MOS, which some block has. */
  lemma SummaryIsWorst(bs: seq<Block>, x: Block)
    requires (forall b :: b in bs ==> Scored(b)) && x in bs
    ensures Summary(bs).rFactor <= RFactor(x.jitterMs, x.fractionLost)
    ensures 10 <= MosX10(Summary(bs).jitterMs, Summary(bs).lossPct) <= Summary(bs).mosX10 <= x.mos <= 44
    ensures exists b :: b in bs && b.mos == Summary(bs).mosX10
  {
    MaxJitterIs(bs);
    MaxLossIs(bs);
    WorstMosIs(bs);
    Bounded(x, MaxJitter(bs), MaxLoss(bs));
    FactorOrder(x.jitterMs, x.fractionLost, MaxJitter(bs), MaxLoss(bs));
    var w :| w in bs && w.mos == WorstMos(bs);
    Bounded(w, MaxJitter(bs), MaxLoss(bs));
  }

  lemma Bounded(b: Block, j: real, l: real)
    requires Scored(b) && b.jitterMs <= j && b.fractionLost <= l
    ensures 10 <= MosX10(j, l) <= b.mos <= 44
  {
    MosOrder(b.jitterMs, b.fractionLost, j, l);
  }

  /** The R factor of a summary is that of the worst jitter and the worst loss any blocks have. */
  lemma FactorOfWorst(bs: seq<Block>, a: Block, b: Block)
    requires (forall x :: x in bs ==> x.jitterMs >= 0.0 && x.fractionLost >= 0.0) && a in bs && b in bs
    requires forall x :: x in bs ==> x.jitterMs <= a.jitterMs && x.fractionLost <= b.fractionLost
    ensures Summary(bs).rFactor == RFactor(a.jitterMs, b.fractionLost)
    ensures Summary(bs).jitterMs == a.jitterMs && Summary(bs).lossPct == b.fractionLost && Summary(bs).blocks == bs
  {
    MaxJitterIs(bs);
    MaxLossIs(bs);
  }

  /** The same of every report the walker returns, on arbitrary bytes. */
  lemma ReportIsWorst(payload: seq<byte>, x: Block)
    requires Qos(payload).Some? && x in Qos(payload).value.blocks
    ensures
      var r := Qos(payload).value;
      && r.rFactor <= RFactor(x.jitterMs, x.fractionLost)
      && 10 <= MosX10(r.jitterMs, r.lossPct) <= r.mosX10 <= x.mos <= 44
      && exists b :: b in r.blocks && b.mos == r.mosX10
  {
    AllScored(Walk(payload, 0), BlockOf);
    SummaryIsWorst(Qos(payload).value.blocks, x);
  }

  lemma AllScored(raw: seq<RawBlock>, read: RawBlock -> Block)
    requires read == BlockOf
    ensures forall b :: b in ReadAll(raw, read) ==> Scored(b)
  {
    forall b | b in ReadAll(raw, read) ensures Scored(b) {
      var i :| 0 <= i < |raw| && ReadAll(raw, read)[i] == b;
    }
  }

  // ----- blocks beyond the packet -----

  /** How many whole blocks lie between `start` and `end`. */
  function Room(start: nat, end: nat): nat {
    if end < start then 0 else (end - start) / BLOCK_SIZE
  }

  lemma {:induction false} BlocksTaken(p: seq<byte>, start: nat, rc: nat)
    ensures |BlocksFrom(p, start, rc)| == Min(rc, Room(start, |p|))
    decreases rc
  {
    if rc > 0 && start + BLOCK_SIZE <= |p| {
      BlocksTaken(p, start + BLOCK_SIZE, rc - 1);
    }
  }

  /** A report's own length bounds what is read from it only if its count says no more, or the payload ends first. */
  lemma BlocksInside(p: seq<byte>, offset: nat)
    requires offset + 4 <= |p| && HasBlocks(p[offset + 1])
    ensures
      var first, end := FirstBlock(offset, p[offset + 1]), NextPacket(p, offset);
      |PacketBlocks(p, offset)| <= Room(first, end) <==> Count(p[offset]) <= Room(first, end) || Room(first, |p|) <= Room(first, end)
  {
    BlocksTaken(p, FirstBlock(offset, p[offset + 1]), Count(p[offset]));
  }

  /** A sender report that counts one block and has length zero: a block is read from far beyond its four bytes. */
  lemma BlockBeyondPacket(tail: seq<byte>)
    requires |tail| >= 48
    ensures
      var p := [129, 200, 0, 0] + tail;
      PacketBlocks(p, 0) == [tail[24..48]] && NextPacket(p, 0) == 4 < FirstBlock(0, p[1])
  {
    var p := [129, 200, 0, 0] + tail;
    assert p[28..52] == tail[24..48];
    assert BlocksFrom(p, 52, 0) == [];
  }
}
