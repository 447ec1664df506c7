/** The RTCP walker of core-go/qos.go: report blocks of sender and receiver reports in a compound packet (section 6.4 of RFC 3550). */
module Rtcp {
  import opened Bytes
  import opened Text
  import opened Mos

  datatype Block = Block(ssrc: nat, fractionLost: real, jitterMs: real, mos: int)

  /** The report's fields; printing them with one decimal is left to the caller. */
  datatype Report = Report(jitterMs: real, lossPct: real, mosX10: int, rFactor: int, blocks: seq<Block>)

  const SENDER_REPORT := 200
  const RECEIVER_REPORT := 201
  const BLOCK_SIZE := 24

  // ----- one block -----

  type RawBlock = b: seq<byte> | |b| == BLOCK_SIZE witness seq(BLOCK_SIZE, i => 0)

  function BlockOf(b: RawBlock): Block {
    var lost := b[4] as int as real / 256.0 * 100.0;
    var jitterMs := U32(b, 12) as real / 8.0;
    Block(U32(b, 0), lost, jitterMs, MosX10(jitterMs, lost))
  }

  // ----- the walk -----

  /** The version in the two top bits. */
  function Version(header: byte): int {
    header as int / 64
  }

  /** The report count in the five low bits. */
  function Count(header: byte): nat {
    header as int % 32
  }

  predicate HasBlocks(pt: byte) {
    pt as int == SENDER_REPORT || pt as int == RECEIVER_REPORT
  }

  /** Where the blocks of a packet begin: behind its SSRC and, in a sender report, 20 bytes more. */
  function FirstBlock(offset: nat, pt: byte): nat {
    if pt as int == SENDER_REPORT then offset + 28 else offset + 8
  }

  /** Up to `rc` whole blocks from `start` on. */
  function BlocksFrom(p: seq<byte>, start: nat, rc: nat): seq<RawBlock>
    decreases rc
  {
    if rc == 0 || start + BLOCK_SIZE > |p| then []
    else [p[start..start + BLOCK_SIZE]] + BlocksFrom(p, start + BLOCK_SIZE, rc - 1)
  }

  /** Where the packet at `offset` ends by its own length field. */
  function NextPacket(p: seq<byte>, offset: nat): (next: nat)
    requires offset + 4 <= |p|
    ensures next >= offset + 4
  {
    offset + U16(p, offset + 2) * 4 + 4
  }

  function PacketBlocks(p: seq<byte>, offset: nat): seq<RawBlock>
    requires offset + 4 <= |p|
  {
    if HasBlocks(p[offset + 1]) then BlocksFrom(p, FirstBlock(offset, p[offset + 1]), Count(p[offset])) else []
  }

  /** The raw blocks met from `offset` on, until the bytes or the version run out. */
  function Walk(p: seq<byte>, offset: nat): seq<RawBlock>
    decreases |p| - offset
  {
    if offset + 4 > |p| || Version(p[offset]) != 2 then []
    else PacketBlocks(p, offset) + Walk(p, NextPacket(p, offset))
  }

  // ----- the summary -----

  function ReadAll(bs: seq<RawBlock>, read: RawBlock -> Block): (r: seq<Block>)
    ensures |r| == |bs| && forall i :: 0 <= i < |bs| ==> r[i] == read(bs[i])
  {
    seq(|bs|, i requires 0 <= i < |bs| => read(bs[i]))
  }

  function Max(a: real, b: real): real {
    if b > a then b else a
  }

  function Min(a: int, b: int): int {
    if b < a then b else a
  }

  function MaxJitter(bs: seq<Block>): real {
    if bs == [] then 0.0 else Max(MaxJitter(bs[..|bs| - 1]), bs[|bs| - 1].jitterMs)
  }

  function MaxLoss(bs: seq<Block>): real {
    if bs == [] then 0.0 else Max(MaxLoss(bs[..|bs| - 1]), bs[|bs| - 1].fractionLost)
  }

  function WorstMos(bs: seq<Block>): int {
    if bs == [] then 50 else Min(WorstMos(bs[..|bs| - 1]), bs[|bs| - 1].mos)
  }

  function Summary(bs: seq<Block>): Report {
    Report(MaxJitter(bs), MaxLoss(bs), WorstMos(bs), RFactor(MaxJitter(bs), MaxLoss(bs)), bs)
  }

  function Qos(payload: seq<byte>): Option<Report> {
    if |payload| < 8 || Walk(payload, 0) == [] then None else Some(Summary(ReadAll(Walk(payload, 0), BlockOf)))
  }

  // ----- the loops -----

  datatype Tally = Tally(maxJitter: real, maxLoss: real, worstMos: int, blocks: seq<Block>)

  /** The running values are those of the blocks so far. */
  ghost predicate Tallied(t: Tally) {
    t.maxJitter == MaxJitter(t.blocks) && t.maxLoss == MaxLoss(t.blocks) && t.worstMos == WorstMos(t.blocks)
  }

  method AddBlock(t: Tally, b: Block) returns (u: Tally)
    requires Tallied(t)
    ensures Tallied(u) && u.blocks == t.blocks + [b]
  {
    u := t;
    if b.jitterMs > u.maxJitter {
      u := u.(maxJitter := b.jitterMs);
    }
    if b.fractionLost > u.maxLoss {
      u := u.(maxLoss := b.fractionLost);
    }
    if b.mos < u.worstMos {
      u := u.(worstMos := b.mos);
    }
    u := u.(blocks := t.blocks + [b]);
    assert u.blocks[..|t.blocks|] == t.blocks;
  }

  lemma ReadCons(b: RawBlock, bs: seq<RawBlock>, read: RawBlock -> Block)
    ensures ReadAll([b] + bs, read) == [read(b)] + ReadAll(bs, read)
  {
  }

  /** The inner loop, over the blocks of one packet. */
  method TakeBlocks(payload: seq<byte>, start: nat, rc: nat, before: Tally, read: RawBlock -> Block) returns (t: Tally)
    requires Tallied(before)
    ensures Tallied(t) && t.blocks == before.blocks + ReadAll(BlocksFrom(payload, start, rc), read)
  {
    t := before;
    var blockStart, i := start, 0;
    while i < rc && blockStart + BLOCK_SIZE <= |payload|
      invariant 0 <= i <= rc && 0 <= blockStart && Tallied(t)
      invariant t.blocks + ReadAll(BlocksFrom(payload, blockStart, rc - i), read) ==
        before.blocks + ReadAll(BlocksFrom(payload, start, rc), read)
    {
      var block: RawBlock := payload[blockStart..blockStart + BLOCK_SIZE];
      ghost var rest := BlocksFrom(payload, blockStart + BLOCK_SIZE, rc - i - 1);
      ReadCons(block, rest, read);
      assert t.blocks + ([read(block)] + ReadAll(rest, read)) == t.blocks + [read(block)] + ReadAll(rest, read);
      t := AddBlock(t, read(block));
      blockStart, i := blockStart + BLOCK_SIZE, i + 1;
    }
  }

  /** What is left to walk, in blocks. */
  function Ahead(p: seq<byte>, offset: nat, read: RawBlock -> Block): seq<Block> {
    ReadAll(Walk(p, offset), read)
  }

  lemma AheadStep(p: seq<byte>, offset: nat, read: RawBlock -> Block)
    requires offset + 4 <= |p| && Version(p[offset]) == 2
    ensures Ahead(p, offset, read) == ReadAll(PacketBlocks(p, offset), read) + Ahead(p, NextPacket(p, offset), read)
  {
    hide PacketBlocks, NextPacket;
    assert Walk(p, offset) == PacketBlocks(p, offset) + Walk(p, NextPacket(p, offset));
  }

  /** One packet of the compound. */
  method TakePacket(payload: seq<byte>, offset: nat, before: Tally, read: RawBlock -> Block) returns (t: Tally)
    requires offset + 4 <= |payload| && Version(payload[offset]) == 2 && Tallied(before)
    ensures Tallied(t)
    ensures t.blocks + Ahead(payload, NextPacket(payload, offset), read) == before.blocks + Ahead(payload, offset, read)
  {
    hide Ahead, NextPacket, BlocksFrom, Version, ReadAll;
    t := before;
    AheadStep(payload, offset, read);
    ghost var raw, rest := PacketBlocks(payload, offset), Ahead(payload, NextPacket(payload, offset), read);
    var pt := payload[offset + 1];
    if HasBlocks(pt) {
      t := TakeBlocks(payload, FirstBlock(offset, pt), Count(payload[offset]), before, read);
    }
    assert t.blocks == before.blocks + ReadAll(raw, read);
    Associate(before.blocks, ReadAll(raw, read), rest);
  }

  lemma Associate(a: seq<Block>, b: seq<Block>, c: seq<Block>)
    ensures a + b + c == a + (b + c)
  {
  }

  /** The outer loop, over the packets of a compound. */
  method WalkAll(payload: seq<byte>, read: RawBlock -> Block) returns (t: Tally)
    ensures t.blocks == Ahead(payload, 0, read) && Tallied(t)
  {
    t := Tally(0.0, 0.0, 50, []);
    var offset := 0;
    while offset + 4 <= |payload|
      invariant 0 <= offset && Tallied(t)
      invariant t.blocks + Ahead(payload, offset, read) == Ahead(payload, 0, read)
      decreases |payload| - offset
    {
      if Version(payload[offset]) != 2 {
        break;
      }
      t := TakePacket(payload, offset, t, read);
      offset := NextPacket(payload, offset);
    }
    assert Ahead(payload, offset, read) == [];
  }

  /** The walker on arbitrary bytes. */
  method ParseQoS(payload: seq<byte>) returns (r: Option<Report>)
    ensures r == Qos(payload)
  {
    if |payload| < 8 {
      return None;
    }
    var t := WalkAll(payload, BlockOf);
    if t.blocks == [] {
      return None;
    }
    r := Some(Report(t.maxJitter, t.maxLoss, t.worstMos, RFactor(t.maxJitter, t.maxLoss), t.blocks));
  }
}
