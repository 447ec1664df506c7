/** The SIP text layer (core-go/sip.go): parser, credential redactor and echo reply. Trimming and case are ASCII. */
module Sip {
  import opened Text

  datatype SipInfo = SipInfo(
    method_: string, status: int, kind: string, callId: string, from: string, to: string, cseq: string, ruri: string)

  const BLANK := SipInfo("", 0, "", "", "", "", "", "")
  const REQUEST := "request"
  const RESPONSE := "response"

  function Lines(msg: string): seq<string> {
    Split(msg, '\n')
  }

  /** The text before the first `c` and, if there is one, the text behind it. */
  function CutAt(s: string, c: char): (string, Option<string>) {
    var i := IndexOf(s, c);
    if i < 0 then (s, None) else (s[..i], Some(s[i + 1..]))
  }

  /** Scanning %d: white space, a sign, digits; None leaves the target alone, as does a number beyond 64 bits. */
  function ScanInt(s: string): Option<int> {
    var t := TrimLeft(s);
    var neg := t != "" && t[0] == '-';
    var body := if t != "" && (t[0] == '-' || t[0] == '+') then t[1..] else t;
    if DigitRun(body) == 0 then None
    else
      var n: int := NatValue(body[..DigitRun(body)]);
      var v := if neg then -n else n;
      if Int64(v) then Some(v) else None
  }

  /** What the start line says. */
  function StartLine(line: string): SipInfo {
    var first := Trim(line);
    var (head, rest) := CutAt(first, ' ');
    if "SIP/" <= first then
      var status := match rest
        case None => None
        case Some(r) => ScanInt(CutAt(r, ' ').0);
      BLANK.(kind := RESPONSE, status := match status case Some(n) => n case None => 0)
    else
      BLANK.(kind := REQUEST, method_ := Upper(head),
             ruri := match rest case Some(r) => CutAt(r, ' ').0 case None => "")
  }

  // ----- headers -----

  /** The header names the two switches know, long and compact forms alike. */
  datatype Name = Via | From | To | CallId | CSeq | Other

  function NameOf(lower: string): Name {
    if lower == "call-id" || lower == "i" then CallId
    else if lower == "from" || lower == "f" then From
    else if lower == "to" || lower == "t" then To
    else if lower == "cseq" then CSeq
    else if lower == "via" || lower == "v" then Via
    else Other
  }

  datatype Header = End | Skip | Field(name: Name, value: string)

  /** How a header line reads: the end of the headers, no header, or a name and a value. */
  function HeaderOf(line: string): Header {
    var t := Trim(line);
    if t == "" then End
    else
      var i := IndexOf(t, ':');
      if i < 1 then Skip else Field(NameOf(Lower(Trim(t[..i]))), Trim(t[i + 1..]))
  }

  /** The run of non-space characters at the front. */
  function Token(s: string): (t: string)
    ensures t <= s && forall i :: 0 <= i < |t| ==> !IsSpace(t[i])
  {
    if s == "" || IsSpace(s[0]) then ""
    else
      assert s == [s[0]] + s[1..];
      [s[0]] + Token(s[1..])
  }

  /** The second of the white-space separated fields, or nothing. */
  function SecondField(s: string): (t: string)
    ensures forall i :: 0 <= i < |t| ==> !IsSpace(t[i])
  {
    var t := TrimLeft(s);
    Token(TrimLeft(t[|Token(t)|..]))
  }

  function SetField(info: SipInfo, name: Name, value: string): SipInfo {
    match name
    case CallId => info.(callId := value)
    case From => info.(from := value)
    case To => info.(to := value)
    case CSeq =>
      var m := if info.kind == RESPONSE && info.method_ == "" then Upper(SecondField(value)) else info.method_;
      info.(cseq := value, method_ := m)
    case _ => info
  }

  /** Every line read by `read`. */
  function ReadLines(lines: seq<string>, read: string -> Header): (hs: seq<Header>)
    ensures |hs| == |lines|
  {
    if lines == [] then [] else [read(lines[0])] + ReadLines(lines[1..], read)
  }

  function HeadersOf(lines: seq<string>): seq<Header> {
    ReadLines(lines, HeaderOf)
  }

  /** The fields set by headers up to the end of them. */
  function ReadHeaders(info: SipInfo, hs: seq<Header>): SipInfo
    decreases |hs|
  {
    if hs == [] || hs[0].End? then info
    else if hs[0].Skip? then ReadHeaders(info, hs[1..])
    else ReadHeaders(SetField(info, hs[0].name, hs[0].value), hs[1..])
  }

  function ParseLines(lines: seq<string>): SipInfo
    requires lines != []
  {
    ReadHeaders(StartLine(lines[0]), HeadersOf(lines[1..]))
  }

  function Parse(msg: string): SipInfo {
    ParseLines(Lines(msg))
  }

  lemma HeadersAt(lines: seq<string>, i: nat)
    requires i < |lines|
    ensures
      var hs := HeadersOf(lines[i..]);
      hs != [] && hs[0] == HeaderOf(lines[i]) && hs[1..] == HeadersOf(lines[i + 1..])
  {
    assert lines[i..][1..] == lines[i + 1..];
  }

  /** The header loop: field after field until an empty line. */
  method ReadHeaderLines(before: SipInfo, lines: seq<string>) returns (info: SipInfo)
    ensures info == ReadHeaders(before, HeadersOf(lines))
  {
    hide Trim, IndexOf, NameOf, Lower, SetField;
    info := before;
    assert lines[0..] == lines;
    var i := 0;
    while i < |lines|
      invariant 0 <= i <= |lines|
      invariant ReadHeaders(info, HeadersOf(lines[i..])) == ReadHeaders(before, HeadersOf(lines))
    {
      HeadersAt(lines, i);
      var line := Trim(lines[i]);
      i := i + 1;
      if line == "" {
        return;
      }
      var colonIdx := IndexOf(line, ':');
      if colonIdx < 1 {
        continue;
      }
      var name := NameOf(Lower(Trim(line[..colonIdx])));
      var value := Trim(line[colonIdx + 1..]);
      info := AssignField(info, name, value);
    }
  }

  /** The parser: start line first, then the headers. */
  method ParseSip(msg: string) returns (info: SipInfo)
    ensures info == Parse(msg)
  {
    var (first, rest) := CutAt(msg, '\n');
    info := StartLine(first);
    if rest.Some? {
      var lines := Lines(rest.value);
      assert Lines(msg)[1..] == lines;
      info := ReadHeaderLines(info, lines);
    }
  }

  /** The header switch. */
  method AssignField(before: SipInfo, name: Name, value: string) returns (info: SipInfo)
    ensures info == SetField(before, name, value)
  {
    info := before;
    match name
    case CallId => info := info.(callId := value);
    case From => info := info.(from := value);
    case To => info := info.(to := value);
    case CSeq =>
      info := info.(cseq := value);
      if info.kind == RESPONSE && info.method_ == "" {
        info := info.(method_ := Upper(SecondField(value)));
      }
    case _ =>
  }

  // ----- redaction -----

  predicate IsCredential(line: string) {
    var t := Lower(Trim(line));
    AUTHORIZATION + ":" <= t || PROXY_AUTHORIZATION + ":" <= t
  }

  const AUTHORIZATION := "authorization"
  const PROXY_AUTHORIZATION := "proxy-authorization"

  /** The lines without those `drop` picks out. */
  function Kept(lines: seq<string>, drop: string -> bool): seq<string> {
    if lines == [] then [] else (if drop(lines[0]) then [] else [lines[0]]) + Kept(lines[1..], drop)
  }

  /** Every line with a newline behind it. */
  function Terminated(lines: seq<string>): string {
    if lines == [] then "" else lines[0] + ['\n'] + Terminated(lines[1..])
  }

  function Redact(msg: string): string {
    Terminated(Kept(Lines(msg), IsCredential))
  }

  lemma KeptStep(b: string, lines: seq<string>, drop: string -> bool)
    requires lines != []
    ensures b + Terminated(Kept(lines, drop)) ==
      (if drop(lines[0]) then b else b + lines[0] + ['\n']) + Terminated(Kept(lines[1..], drop))
  {
    hide Kept, Terminated;
    var rest := Kept(lines[1..], drop);
    KeptCons(lines, drop);
    if !drop(lines[0]) {
      TerminatedCons(lines[0], rest);
    }
  }

  lemma KeptCons(lines: seq<string>, drop: string -> bool)
    requires lines != []
    ensures Kept(lines, drop) == if drop(lines[0]) then Kept(lines[1..], drop) else [lines[0]] + Kept(lines[1..], drop)
  {
    assert [] + Kept(lines[1..], drop) == Kept(lines[1..], drop);
  }

  lemma TerminatedCons(x: string, rest: seq<string>)
    ensures Terminated([x] + rest) == x + ['\n'] + Terminated(rest)
  {
    assert ([x] + rest)[1..] == rest;
  }

  method RedactSip(msg: string) returns (b: string)
    ensures b == Redact(msg)
  {
    b := KeepLines(Lines(msg), IsCredential);
  }

  /** The redaction loop. */
  method KeepLines(lines: seq<string>, drop: string -> bool) returns (b: string)
    ensures b == Terminated(Kept(lines, drop))
  {
    b := "";
    assert lines[0..] == lines;
    for i := 0 to |lines|
      invariant b + Terminated(Kept(lines[i..], drop)) == Terminated(Kept(lines, drop))
    {
      KeptStep(b, lines[i..], drop);
      assert lines[i..][1..] == lines[i + 1..];
      if drop(lines[i]) {
        continue;
      }
      b := b + lines[i] + ['\n'];
    }
    assert lines[|lines|..] == [];
  }

  // ----- the echo reply -----

  datatype EchoHeaders = EchoHeaders(via: string, from: string, to: string, callId: string, cseq: string)

  const NO_HEADERS := EchoHeaders("", "", "", "", "")
  const VERSION := "0.4.0"

  function SetEcho(e: EchoHeaders, name: Name, value: string): EchoHeaders {
    match name
    case Via => if e.via == "" then e.(via := value) else e
    case From => e.(from := value)
    case To => e.(to := value)
    case CallId => e.(callId := value)
    case CSeq => e.(cseq := value)
    case Other => e
  }

  function ReadEcho(e: EchoHeaders, hs: seq<Header>): EchoHeaders
    decreases |hs|
  {
    if hs == [] || hs[0].End? then e
    else if hs[0].Skip? then ReadEcho(e, hs[1..])
    else ReadEcho(SetEcho(e, hs[0].name, hs[0].value), hs[1..])
  }

  /** The reply's lines as they stand between newlines. */
  function ReplyLines(e: EchoHeaders, method_: string, host: string, port: int): seq<string> {
    [StatusText(method_)] + CopiedLines(e) + OwnLines(method_, host, port)
  }

  const OK_LINE := "SIP/2.0 200 OK\r"
  const UNAUTHORIZED_LINE := "SIP/2.0 401 Unauthorized\r"
  const ALLOWED := "INVITE,ACK,BYE,CANCEL,OPTIONS,REGISTER,INFO"

  const VIA := "Via"
  const FROM := "From"
  const TO := "To"
  const CALL_ID := "Call-ID"
  const CSEQ := "CSeq"
  const CONTACT := "Contact"
  const SERVER := "Server"
  const ALLOW := "Allow"
  const CONTENT_LENGTH := "Content-Length"

  /** A printed header, up to its newline. */
  function HeaderText(name: string, value: string): string {
    name + [':'] + ([' '] + value + ['\r'])
  }

  function StatusText(method_: string): string {
    if method_ == "REGISTER" then UNAUTHORIZED_LINE else OK_LINE
  }

  function CopiedLines(e: EchoHeaders): seq<string> {
    [HeaderText(VIA, e.via), HeaderText(FROM, e.from), HeaderText(TO, e.to),
     HeaderText(CALL_ID, e.callId), HeaderText(CSEQ, e.cseq)]
  }

  function OwnLines(method_: string, host: string, port: int): seq<string> {
    [HeaderText(CONTACT, "<sip:" + host + ":" + IntText(port) + ">"), HeaderText(SERVER, "Zaman/" + VERSION)]
    + (if method_ == "OPTIONS" then [HeaderText(ALLOW, ALLOWED)] else [])
    + [HeaderText(CONTENT_LENGTH, "0"), "\r"]
  }

  function Echo(msg: string, host: string, port: int): string {
    var info := Parse(msg);
    if info.kind != REQUEST then ""
    else Terminated(ReplyLines(ReadEcho(NO_HEADERS, HeadersOf(Lines(msg))), info.method_, host, port))
  }

  /** The loop that collects the headers to copy. */
  method CollectHeaders(lines: seq<string>) returns (e: EchoHeaders)
    ensures e == ReadEcho(NO_HEADERS, HeadersOf(lines))
  {
    hide Trim, IndexOf, NameOf, Lower, SetEcho;
    e := NO_HEADERS;
    assert lines[0..] == lines;
    var i := 0;
    while i < |lines|
      invariant 0 <= i <= |lines|
      invariant ReadEcho(e, HeadersOf(lines[i..])) == ReadEcho(NO_HEADERS, HeadersOf(lines))
    {
      HeadersAt(lines, i);
      var line := Trim(lines[i]);
      i := i + 1;
      if line == "" {
        return;
      }
      var colonIdx := IndexOf(line, ':');
      if colonIdx < 1 {
        continue;
      }
      var name := NameOf(Lower(Trim(line[..colonIdx])));
      var value := Trim(line[colonIdx + 1..]);
      e := AssignEcho(e, name, value);
    }
  }

  /** The header switch of the reply; only the first Via is kept. */
  method AssignEcho(before: EchoHeaders, name: Name, value: string) returns (e: EchoHeaders)
    ensures e == SetEcho(before, name, value)
  {
    e := before;
    match name
    case Via =>
      if e.via == "" {
        e := e.(via := value);
      }
    case From => e := e.(from := value);
    case To => e := e.(to := value);
    case CallId => e := e.(callId := value);
    case CSeq => e := e.(cseq := value);
    case Other =>
  }

  /** The reply, printed line by line; empty for anything but a request. */
  method BuildEcho(msg: string, host: string, port: int) returns (b: string)
    ensures b == Echo(msg, host, port)
  {
    var info := ParseSip(msg);
    if info.kind != REQUEST {
      return "";
    }
    var e := CollectHeaders(Lines(msg));
    var lines := PrintReply(e, info.method_, host, port);
    b := Terminated(lines);
  }

  method PrintReply(e: EchoHeaders, method_: string, host: string, port: int) returns (lines: seq<string>)
    ensures lines == ReplyLines(e, method_, host, port)
  {
    lines := [StatusText(method_)] + CopiedLines(e);
    var own := [HeaderText(CONTACT, "<sip:" + host + ":" + IntText(port) + ">"), HeaderText(SERVER, "Zaman/" + VERSION)];
    if method_ == "OPTIONS" {
      own := own + [HeaderText(ALLOW, ALLOWED)];
    }
    lines := lines + (own + [HeaderText(CONTENT_LENGTH, "0"), "\r"]);
  }
}
