/** A HEP3 payload that the collector accepts and stores, and that no reader gets back from the exported file. */
module PcapCaptured {
  import opened Bytes
  import opened Text
  import opened HepCodec
  import opened HepLaws
  import opened Sip
  import opened SipLaws
  import opened PcapLaws
  import opened PcapReader
  import opened PcapExport

  /** The longest payload of a HEP3 packet that holds nothing else. */
  const LONGEST_HEP_PAYLOAD := 65523

  /** Bytes as the characters of a string. */
  function AsText(p: seq<byte>): (s: string)
    ensures |s| == |p| && forall i :: 0 <= i < |p| ==> s[i] == p[i] as char
  {
    seq(|p|, i requires 0 <= i < |p| => p[i] as char)
  }

  function PayloadPacket(p: seq<byte>): seq<byte>
    requires |p| <= LONGEST_HEP_PAYLOAD
  {
    OnePayloadFits(p);
    Packet([Chunk(0, 15, p)])
  }

  lemma OnePayloadFits(p: seq<byte>)
    requires |p| <= LONGEST_HEP_PAYLOAD
    ensures FitsPacket([Chunk(0, 15, p)])
  {
    var c := Chunk(0, 15, p);
    assert BodyBytes([c]) == ChunkBytes(c) + BodyBytes([c][1..]);
  }

  /** Payloads up to that length are captured whole. */
  lemma PayloadCaptured(p: seq<byte>)
    requires 0 < |p| <= LONGEST_HEP_PAYLOAD
    ensures Decode(PayloadPacket(p)).ok && Decode(PayloadPacket(p)).payload == p
  {
    var c := Chunk(0, 15, p);
    OnePayloadFits(p);
    DecodePacket([c], []);
    assert ApplyAll(NO_INFO, [c]) == ApplyAll(Apply(NO_INFO, c), [c][1..]);
  }

  lemma {:induction false} KeptAll(lines: seq<string>, drop: string -> bool)
    requires forall l :: l in lines ==> !drop(l)
    ensures Kept(lines, drop) == lines
  {
    if lines != [] {
      KeptAll(lines[1..], drop);
    }
  }

  lemma {:induction false} TerminatedLines(s: string)
    ensures Terminated(Lines(s)) == s + "\n"
    decreases |s|
  {
    var i := IndexOf(s, '\n');
    var parts := Lines(s);
    if i < 0 {
      assert parts[1..] == [];
    } else {
      TerminatedLines(s[i + 1..]);
      assert parts[1..] == Lines(s[i + 1..]);
      assert s == s[..i] + ['\n'] + s[i + 1..];
    }
  }

  /** Where there is no credential, redaction adds a newline and nothing else. */
  lemma RedactsNothing(s: string)
    requires forall l :: l in Lines(s) ==> !IsCredential(l)
    ensures Redact(s) == s + "\n"
  {
    KeptAll(Lines(s), IsCredential);
    TerminatedLines(s);
  }

  /**
   A payload of 65,507 to 65,523 bytes without credentials is captured, stored with the newline that redaction adds,
   and spoils every file it is exported to.
   */
  lemma LongCapture(p: seq<byte>, ms: seq<Captured>, m: Captured)
    requires MAX_PAYLOAD <= |p| <= LONGEST_HEP_PAYLOAD && forall l :: l in Lines(AsText(p)) ==> !IsCredential(l)
    requires m in ms && AsText(m.raw) == Redact(AsText(p))
    ensures Decode(PayloadPacket(p)).ok && Decode(PayloadPacket(p)).payload == p
    ensures ReadFile(GlobalHeader(ETHERNET_LINK) + RecordsFor(SortByTime(ms), 1)) != Some(DatagramsFor(SortByTime(ms)))
  {
    hide ReadFile, RecordsFor, DatagramsFor, SortByTime, Decode, Redact, IsCredential, GlobalHeader;
    PayloadCaptured(p);
    RedactsNothing(AsText(p));
    assert |m.raw| == |p| + 1;
    ReadBack(ms);
  }

  /** Such a payload: 65,507 times the letter x. */
  lemma LetterPayload(p: seq<byte>)
    requires |p| == MAX_PAYLOAD && forall i :: 0 <= i < |p| ==> p[i] == 120
    ensures forall l :: l in Lines(AsText(p)) ==> !IsCredential(l)
  {
    hide Lines, IsCredential;
    LettersAreOneLine(AsText(p));
  }

  lemma LettersAreOneLine(s: string)
    requires s != "" && forall i :: 0 <= i < |s| ==> s[i] == 'x'
    ensures forall l :: l in Lines(s) ==> !IsCredential(l)
  {
    hide Trim, IndexOf;
    TrimNoSpaces(s);
    assert Lower(Trim(s))[0] == 'x';
    assert Lines(s) == [s];
  }
}
