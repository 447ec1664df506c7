/** From a SIP message to its capture record (core-go/sip.go): the printing worker and what the record says of the message. */
module RecordMaker {
  import opened Bytes
  import opened Text
  import opened Json
  import opened CallState
  import opened DatabaseLaws
  import opened Record
  import Sip
  import SipLaws

  /** What the worker knows besides the message. */
  datatype Meta = Meta(
    src: string, dst: string, transport: string, agent: string, proto: string, tsMs: int,
    hepNodeId: int, hepNode: string, hepCid: string)

  /** Bytes of the UTF-8 encoding. */
  function Utf8Length(s: string): nat {
    if s == "" then 0 else
      (if s[0] as int < 0x80 then 1 else if s[0] as int < 0x800 then 2 else if s[0] as int < 0x1_0000 then 3 else 4)
      + Utf8Length(s[1..])
  }

  /** A character's bytes in UTF-8, section 3 of RFC 3629. */
  function Utf8Char(c: char): (bs: seq<byte>)
    ensures |bs| > 0
  {
    var n := c as int;
    if n < 0x80 then [n]
    else if n < 0x800 then [0xc0 + n / 0x40, 0x80 + n % 0x40]
    else if n < 0x1_0000 then [0xe0 + n / 0x1000, 0x80 + n / 0x40 % 0x40, 0x80 + n % 0x40]
    else [0xf0 + n / 0x4_0000, 0x80 + n / 0x1000 % 0x40, 0x80 + n / 0x40 % 0x40, 0x80 + n % 0x40]
  }

  function Utf8(s: string): seq<byte> {
    if s == "" then [] else Utf8Char(s[0]) + Utf8(s[1..])
  }

  /** The size of a text is the number of its bytes in UTF-8. */
  lemma {:induction false} SizeInBytes(s: string)
    ensures Utf8Length(s) == |Utf8(s)|
  {
    if s != "" {
      SizeInBytes(s[1..]);
    }
  }

  /** The method, behind the status class when the message is a response. */
  function MethodField(info: Sip.SipInfo): string {
    if info.kind == Sip.RESPONSE && info.status > 0 && info.method_ != "" then
      IntText(info.status / 100) + [' '] + info.method_
    else info.method_
  }

  /** The record meant for what was parsed. */
  function Meant(meta: Meta, info: Sip.SipInfo, size: int, raw64: string): CaptureRecord {
    CaptureRecord(
      meta.tsMs, meta.src, meta.dst, meta.transport, meta.proto, meta.agent, info.kind,
      MethodField(info), info.status, info.callId, info.from, info.to, info.cseq, info.ruri,
      if meta.hepNodeId > 0 then meta.hepNodeId else 0, meta.hepNode, meta.hepCid, size, raw64)
  }

  /** The record meant for a message; `base64` encodes the redacted text. */
  function RecordOf(meta: Meta, msg: string, base64: string -> string): CaptureRecord {
    Meant(meta, Sip.Parse(msg), Utf8Length(msg), base64(Sip.Redact(msg)))
  }

  // ----- printing it -----

  /** Text that stands for itself between quotes. */
  predicate Plain(s: string) {
    forall i :: 0 <= i < |s| ==> s[i] != '"' && s[i] != '\\' && s[i] >= ' '
  }

  lemma {:induction false} PlainEscape(s: string)
    requires Plain(s)
    ensures Escape(s) == s
  {
    if s != "" {
      PlainEscape(s[1..]);
      assert [s[0]] + s[1..] == s;
    }
  }

  lemma PlainKey(c: Column)
    ensures Plain(KeyText(c))
  {
  }

  /** The text so far shows the columns in `cs` of `r`. */
  ghost predicate Printed(b: string, r: CaptureRecord, cs: seq<Column>) {
    Shown(r, cs) != [] && b == ['{'] + Members(Shown(r, cs))
  }

  lemma ShownSnoc(r: CaptureRecord, cs: seq<Column>, c: Column)
    ensures Shown(r, cs + [c]) ==
      Shown(r, cs) + if Optional(c) && Nothing(Cell(r, c)) then [] else [Member(KeyText(c), Cell(r, c))]
  {
    assert (cs + [c])[..|cs|] == cs;
  }

  /** A comma, a key as it is, and a value. */
  function Entry(c: Column, v: string): string {
    ",\"" + KeyText(c) + "\":" + v
  }

  lemma EntryText(c: Column, v: Value)
    ensures Entry(c, ValueText(v)) == [','] + MemberText(Member(KeyText(c), v))
  {
    PlainKey(c);
    EntryOf(KeyText(c), v);
  }

  lemma EntryOf(key: string, v: Value)
    requires Plain(key)
    ensures ",\"" + key + "\":" + ValueText(v) == [','] + MemberText(Member(key, v))
  {
    PlainEscape(key);
  }

  lemma {:induction false} PrintOne(b: string, r: CaptureRecord, cs: seq<Column>, c: Column, v: string)
    requires Printed(b, r, cs) && !(Optional(c) && Nothing(Cell(r, c)))
    requires v == ValueText(Cell(r, c))
    ensures Printed(b + Entry(c, v), r, cs + [c])
  {
    var m := Member(KeyText(c), Cell(r, c));
    ShownSnoc(r, cs, c);
    MembersSnoc(Shown(r, cs), m);
    EntryText(c, Cell(r, c));
    Glue(Members(Shown(r, cs)), MemberText(m));
  }

  lemma Glue(ms: string, m: string)
    ensures ['{'] + ms + ([','] + m) == ['{'] + (ms + [','] + m)
  {
  }

  lemma PrintNone(b: string, r: CaptureRecord, cs: seq<Column>, c: Column)
    requires Printed(b, r, cs) && Optional(c) && Nothing(Cell(r, c))
    ensures Printed(b, r, cs + [c])
  {
    ShownSnoc(r, cs, c);
    assert Shown(r, cs) + [] == Shown(r, cs);
  }

  /** An escaped string member; an optional one only if there is something to show. */
  method PutText(b: string, c: Column, v: string, ghost r: CaptureRecord, ghost cs: seq<Column>)
    returns (t: string, ghost next: seq<Column>)
    requires Printed(b, r, cs) && Cell(r, c) == Str(v)
    ensures next == cs + [c] && Printed(t, r, next)
  {
    next := cs + [c];
    if Optional(c) && v == "" {
      PrintNone(b, r, cs, c);
      return b, next;
    }
    var e := Jesc(v);
    PrintOne(b, r, cs, c, ['"'] + e + ['"']);
    t := b + Entry(c, ['"'] + e + ['"']);
  }

  /** A string member written as it is. */
  method PutPlain(b: string, c: Column, v: string, ghost r: CaptureRecord, ghost cs: seq<Column>)
    returns (t: string, ghost next: seq<Column>)
    requires Printed(b, r, cs) && Cell(r, c) == Str(v) && !Optional(c) && Plain(v)
    ensures next == cs + [c] && Printed(t, r, next)
  {
    next := cs + [c];
    PlainEscape(v);
    PrintOne(b, r, cs, c, ['"'] + v + ['"']);
    t := b + Entry(c, ['"'] + v + ['"']);
  }

  /** A number; an optional one only if positive. */
  method PutNumber(b: string, c: Column, n: int, ghost r: CaptureRecord, ghost cs: seq<Column>)
    returns (t: string, ghost next: seq<Column>)
    requires Printed(b, r, cs) && Cell(r, c) == Num(if Optional(c) && n <= 0 then 0 else n)
    ensures next == cs + [c] && Printed(t, r, next)
  {
    next := cs + [c];
    if Optional(c) && n <= 0 {
      PrintNone(b, r, cs, c);
      return b, next;
    }
    PrintOne(b, r, cs, c, IntText(n));
    t := b + Entry(c, IntText(n));
  }

  lemma FirstColumn(b: string, r: CaptureRecord, c: Column, v: string)
    requires !Optional(c) && v == ValueText(Cell(r, c)) && b == ['{'] + Entry(c, v)[1..]
    ensures Printed(b, r, [c])
  {
    var m := Member(KeyText(c), Cell(r, c));
    ShownSnoc(r, [], c);
    assert [] + [c] == [c];
    assert Shown(r, [c]) == [m];
    EntryText(c, Cell(r, c));
    assert ([','] + MemberText(m))[1..] == MemberText(m);
  }

  lemma PrintFirst(r: CaptureRecord, b: string, cs: seq<Column>)
    requires b == "{\"ts_ms\":" + IntText(r.tsMs) && cs == [TsMs]
    ensures Printed(b, r, cs)
  {
    FirstColumn(b, r, TsMs, IntText(r.tsMs));
  }

  /** The first line: where the message was seen. */
  method PutOrigin(meta: Meta, ghost r: CaptureRecord) returns (b: string, ghost cs: seq<Column>)
    requires r.tsMs == meta.tsMs && r.src == meta.src && r.dst == meta.dst && r.transport == meta.transport
    requires r.proto == meta.proto && r.agent == meta.agent
    ensures Printed(b, r, cs) && cs == [TsMs, Src, Dst, Transport, Proto, Agent]
  {
    hide Printed;
    b := "{\"ts_ms\":" + IntText(meta.tsMs);
    cs := [TsMs];
    PrintFirst(r, b, cs);
    b, cs := PutText(b, Src, meta.src, r, cs);
    b, cs := PutText(b, Dst, meta.dst, r, cs);
    b, cs := PutText(b, Transport, meta.transport, r, cs);
    b, cs := PutText(b, Proto, meta.proto, r, cs);
    b, cs := PutText(b, Agent, meta.agent, r, cs);
  }

  /** The method, with the status class in front of it when it names a response. */
  method PutMethod(before: string, info: Sip.SipInfo, ghost r: CaptureRecord, ghost done: seq<Column>)
    returns (b: string, ghost cs: seq<Column>)
    requires Printed(before, r, done) && r.method_ == MethodField(info)
    ensures Printed(b, r, cs) && cs == done + [Method]
  {
    var method_ := info.method_;
    if info.kind == Sip.RESPONSE && info.status > 0 && method_ != "" {
      var statusClass := info.status / 100;
      method_ := IntText(statusClass) + [' '] + info.method_;
    }
    b, cs := PutText(before, Method, method_, r, done);
  }

  /** What the start line says. */
  method PutStart(before: string, info: Sip.SipInfo, ghost r: CaptureRecord, ghost done: seq<Column>)
    returns (b: string, ghost cs: seq<Column>)
    requires Printed(before, r, done) && Plain(info.kind)
    requires r.kind == info.kind && r.method_ == MethodField(info) && r.status == info.status && r.ruri == info.ruri
    ensures Printed(b, r, cs) && cs == done + [Kind, Method, Status, Ruri]
  {
    hide Printed, IntText;
    b, cs := PutPlain(before, Kind, info.kind, r, done);
    b, cs := PutMethod(b, info, r, cs);
    b, cs := PutNumber(b, Status, info.status, r, cs);
    b, cs := PutText(b, Ruri, info.ruri, r, cs);
  }

  /** What the headers say. */
  method PutHeaders(before: string, info: Sip.SipInfo, ghost r: CaptureRecord, ghost done: seq<Column>)
    returns (b: string, ghost cs: seq<Column>)
    requires Printed(before, r, done)
    requires r.callId == info.callId && r.from == info.from && r.to == info.to && r.cseq == info.cseq
    ensures Printed(b, r, cs) && cs == done + [CallId, From, To, CSeq]
  {
    hide Printed;
    b, cs := PutText(before, CallId, info.callId, r, done);
    b, cs := PutText(b, From, info.from, r, cs);
    b, cs := PutText(b, To, info.to, r, cs);
    b, cs := PutText(b, CSeq, info.cseq, r, cs);
  }

  /** Who captured it. */
  method PutHep(before: string, meta: Meta, ghost r: CaptureRecord, ghost done: seq<Column>)
    returns (b: string, ghost cs: seq<Column>)
    requires Printed(before, r, done)
    requires r.hepNodeId == (if meta.hepNodeId > 0 then meta.hepNodeId else 0)
    requires r.hepNode == meta.hepNode && r.hepCid == meta.hepCid
    ensures Printed(b, r, cs) && cs == done + [HepNodeId, HepNode, HepCid]
  {
    hide Printed;
    b, cs := PutNumber(before, HepNodeId, meta.hepNodeId, r, done);
    b, cs := PutText(b, HepNode, meta.hepNode, r, cs);
    b, cs := PutText(b, HepCid, meta.hepCid, r, cs);
  }

  lemma ColumnsInOrder(cs: seq<Column>)
    requires cs == [TsMs, Src, Dst, Transport, Proto, Agent] + [Kind, Method, Status, Ruri] + [CallId, From, To, CSeq]
      + [HepNodeId, HepNode, HepCid]
    ensures cs + [Size] + [RawB64] == ORDER
  {
  }

  /** The record of a message, printed member by member. */
  method MakeRecord(meta: Meta, msg: string, base64: string -> string) returns (json: string)
    requires Plain(base64(Sip.Redact(msg)))
    ensures json == RecordText(RecordOf(meta, msg, base64))
  {
    var redacted := Sip.RedactSip(msg);
    var info := Sip.ParseSip(msg);
    var raw64 := base64(redacted);
    ghost var r := RecordOf(meta, msg, base64);
    KindOf(msg);
    json := PrintRecord(meta, info, Utf8Length(msg), raw64, r);
  }

  /** The members in the order of the columns. */
  method PrintRecord(meta: Meta, info: Sip.SipInfo, size: int, raw64: string, ghost r: CaptureRecord) returns (json: string)
    requires Plain(info.kind) && Plain(raw64)
    requires r == Meant(meta, info, size, raw64)
    ensures json == RecordText(r)
  {
    ghost var cs;
    json, cs := PrintOptional(meta, info, r);
    ColumnsInOrder(cs);
    json, cs := PutNumber(json, Size, size, r, cs);
    json, cs := PutPlain(json, RawB64, raw64, r, cs);
    json := json + ['}'];
  }

  /** All members but the last two. */
  method PrintOptional(meta: Meta, info: Sip.SipInfo, ghost r: CaptureRecord) returns (b: string, ghost cs: seq<Column>)
    requires Plain(info.kind) && r == Meant(meta, info, r.size, r.rawB64)
    ensures Printed(b, r, cs)
    ensures cs == [TsMs, Src, Dst, Transport, Proto, Agent] + [Kind, Method, Status, Ruri] + [CallId, From, To, CSeq]
      + [HepNodeId, HepNode, HepCid]
  {
    b, cs := PutOrigin(meta, r);
    b, cs := PutStart(b, info, r, cs);
    b, cs := PutHeaders(b, info, r, cs);
    b, cs := PutHep(b, meta, r, cs);
  }

  // ----- what the record says of the message -----

  lemma KindOf(msg: string)
    ensures Sip.Parse(msg).kind == Sip.REQUEST || Sip.Parse(msg).kind == Sip.RESPONSE
    ensures Plain(Sip.Parse(msg).kind)
  {
    var lines := Sip.Lines(msg);
    SipLaws.StartLineStays(Sip.StartLine(lines[0]), Sip.HeadersOf(lines[1..]));
    KindsArePlain();
  }

  lemma KindsArePlain()
    ensures Plain(Sip.REQUEST) && Plain(Sip.RESPONSE)
  {
  }

  /** A method without spaces and a status of at most 64 bits. */
  predicate Sound(info: Sip.SipInfo) {
    ' ' !in info.method_ && Int64(info.status)
  }

  lemma UpperKeepsSpaces(s: string)
    requires ' ' !in s
    ensures ' ' !in Upper(s)
  {
  }

  lemma NoSpaces(s: string)
    requires forall i :: 0 <= i < |s| ==> !IsSpace(s[i])
    ensures ' ' !in s
  {
  }

  lemma SetFieldSound(info: Sip.SipInfo, name: Sip.Name, value: string)
    requires Sound(info)
    ensures Sound(Sip.SetField(info, name, value))
  {
    NoSpaces(Sip.SecondField(value));
    UpperKeepsSpaces(Sip.SecondField(value));
  }

  lemma {:induction false} HeadersSound(info: Sip.SipInfo, hs: seq<Sip.Header>)
    requires Sound(info)
    ensures Sound(Sip.ReadHeaders(info, hs))
    decreases |hs|
  {
    if hs != [] && !hs[0].End? {
      if hs[0].Skip? {
        HeadersSound(info, hs[1..]);
      } else {
        SetFieldSound(info, hs[0].name, hs[0].value);
        HeadersSound(Sip.SetField(info, hs[0].name, hs[0].value), hs[1..]);
      }
    }
  }

  lemma StartSound(line: string)
    ensures Sound(Sip.StartLine(line))
  {
    StartMethod(line);
  }

  lemma StartMethod(line: string)
    ensures ' ' !in Sip.StartLine(line).method_
  {
    UpperKeepsSpaces(Sip.CutAt(Trim(line), ' ').0);
  }

  lemma ParseSound(msg: string)
    ensures Sound(Sip.Parse(msg))
  {
    var lines := Sip.Lines(msg);
    StartSound(lines[0]);
    HeadersSound(Sip.StartLine(lines[0]), Sip.HeadersOf(lines[1..]));
  }

  /** The base method the writer cuts out of a record is the method the parser read, prefix or not. */
  lemma PrefixUndone(info: Sip.SipInfo)
    requires Sound(info)
    ensures BaseMethod(MethodField(info)) == info.method_
  {
    if info.kind == Sip.RESPONSE && info.status > 0 && info.method_ != "" {
      CutPrefix(info.status / 100, info.method_);
    }
  }

  lemma CutPrefix(class_: nat, m: string)
    ensures BaseMethod(IntText(class_) + [' '] + m) == m
  {
    var d := NatText(class_);
    IndexOfAfter(d, ' ', m);
    assert (d + [' '] + m)[|d| + 1..] == m;
  }

  /** The three flags of call_state follow from the message: an answer, a close by either kind, an INVITE request. */
  lemma FlagsOfMessage(meta: Meta, msg: string, base64: string -> string)
    ensures
      var r, info := RecordOf(meta, msg, base64), Sip.Parse(msg);
      && BaseMethod(r.method_) == info.method_
      && (Answers(r) <==> info.kind == Sip.RESPONSE && info.method_ == "INVITE" && 200 <= info.status < 300)
      && (Invites(r) <==> info.kind == Sip.REQUEST && info.method_ == "INVITE")
      && (Closes(r) <==> info.method_ == "BYE" || info.method_ == "CANCEL")
  {
    ParseSound(msg);
    PrefixUndone(Sip.Parse(msg));
  }

  /** For every message and all metadata in range, the writer reads the record that was meant. */
  lemma MessageRoundTrip(meta: Meta, msg: string, base64: string -> string)
    requires Int64(meta.tsMs) && Int64(meta.hepNodeId) && Int64(Utf8Length(msg))
    ensures ReadRecord(RecordText(RecordOf(meta, msg, base64))) == Some(RecordOf(meta, msg, base64))
  {
    ParseSound(msg);
    RecordRoundTrip(RecordOf(meta, msg, base64));
  }

  // ----- a batch of such texts -----

  /** The texts of these records. */
  function TextsOf(rs: seq<CaptureRecord>, text: CaptureRecord -> string): (ts: seq<string>)
    ensures |ts| == |rs| && forall i :: 0 <= i < |rs| ==> ts[i] == text(rs[i])
  {
    if rs == [] then [] else TextsOf(rs[..|rs| - 1], text) + [text(rs[|rs| - 1])]
  }

  lemma {:induction false} TextsParse(
    rs: seq<CaptureRecord>, text: CaptureRecord -> string, parse: string -> Option<CaptureRecord>)
    requires forall r :: r in rs ==> parse(text(r)) == Some(r)
    ensures Parsed(TextsOf(rs, text), parse) == rs
  {
    if rs != [] {
      var n := |rs| - 1;
      TextsParse(rs[..n], text, parse);
      assert TextsOf(rs, text)[..n] == TextsOf(rs[..n], text);
      assert rs[n] in rs && rs == rs[..n] + [rs[n]];
    }
  }

  lemma TextsPair(rs: seq<CaptureRecord>, text: CaptureRecord -> string, parse: string -> Option<CaptureRecord>)
    requires forall r :: r in rs ==> parse(text(r)) == Some(r)
    ensures Pair(rs, TextsOf(rs, text)) == OwnRows(TextsOf(rs, text), parse)
  {
    TextsParse(rs, text, parse);
    forall i | 0 <= i < |rs| ensures parse(TextsOf(rs, text)[i]).Some? {
      assert rs[i] in rs;
    }
    PairingExact(TextsOf(rs, text), parse);
  }

  /** A batch of printed records parses to those records, and each is stored beside its own text. */
  lemma PrintedBatch(rs: seq<CaptureRecord>)
    requires forall r :: r in rs ==> InRange(r)
    ensures Parsed(TextsOf(rs, RecordText), ReadRecord) == rs
    ensures Pair(rs, TextsOf(rs, RecordText)) == OwnRows(TextsOf(rs, RecordText), ReadRecord)
  {
    forall r | r in rs ensures ReadRecord(RecordText(r)) == Some(r) {
      RecordRoundTrip(r);
    }
    TextsParse(rs, RecordText, ReadRecord);
    TextsPair(rs, RecordText, ReadRecord);
  }
}
