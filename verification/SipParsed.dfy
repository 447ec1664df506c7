/** What the parser reads in a message that is laid out as SIP messages are: start line, header lines, blank line, body. */
module SipParsed {
  import opened Text
  import opened Sip
  import opened SipLaws
  import opened SipEcho
  import opened SipStart

  /** A header as it stands in a message: any name, long, compact or unknown, in any case, and a trimmed value. */
  datatype Printed = Printed(name: string, value: string)

  predicate NamesPlain(hs: seq<Printed>) {
    forall h :: h in hs ==> PlainName(h.name)
  }

  predicate ValuesOk(hs: seq<Printed>, ok: string -> bool) {
    forall h :: h in hs ==> ok(h.value)
  }

  predicate AllPrintable(hs: seq<Printed>) {
    NamesPlain(hs) && ValuesOk(hs, CleanValue)
  }

  function LineOf(h: Printed): string {
    HeaderText(h.name, h.value)
  }

  function HeaderLines(hs: seq<Printed>): (ls: seq<string>)
    ensures |ls| == |hs| && forall i :: 0 <= i < |hs| ==> ls[i] == LineOf(hs[i])
  {
    if hs == [] then [] else [LineOf(hs[0])] + HeaderLines(hs[1..])
  }

  function FieldOf(h: Printed): Header {
    Field(NameOf(Lower(h.name)), h.value)
  }

  function Fields(hs: seq<Printed>): (fs: seq<Header>)
    ensures |fs| == |hs| && forall i :: 0 <= i < |hs| ==> fs[i] == FieldOf(hs[i])
  {
    if hs == [] then [] else [FieldOf(hs[0])] + Fields(hs[1..])
  }

  lemma {:induction false} LinesRead(hs: seq<Printed>, read: string -> Header)
    requires AllPrintable(hs) && ReadsHeaders(read)
    ensures ReadLines(HeaderLines(hs), read) == Fields(hs)
  {
    if hs != [] {
      LinesRead(hs[1..], read);
      PrintedField(hs[0].name, hs[0].value, NameOf(Lower(hs[0].name)), read);
      ReadLinesCons(LineOf(hs[0]), HeaderLines(hs[1..]), read);
    }
  }

  lemma {:induction false} EachIsLine(hs: seq<Printed>)
    requires forall h :: h in hs ==> OneLine(LineOf(h))
    ensures AllOneLine(HeaderLines(hs))
  {
    if hs != [] {
      EachIsLine(hs[1..]);
      assert hs[0] in hs;
    }
  }

  lemma LinesAreLines(hs: seq<Printed>)
    requires AllPrintable(hs)
    ensures AllOneLine(HeaderLines(hs))
  {
    forall h | h in hs ensures OneLine(LineOf(h)) {
    }
    EachIsLine(hs);
  }

  // ----- the fields a header list sets -----

  /** The headers both loops read, all of them overwritten by later ones. */
  predicate Shared(n: Name) {
    n == From || n == To || n == CallId || n == CSeq
  }

  function ParsedField(info: SipInfo, n: Name): string {
    match n
    case From => info.from
    case To => info.to
    case CallId => info.callId
    case CSeq => info.cseq
    case _ => ""
  }

  /** The value of the last header of this name before the headers end. */
  function LastValue(hs: seq<Header>, n: Name): Option<string>
    decreases |hs|
  {
    if hs == [] || hs[0].End? then None
    else
      var later := LastValue(hs[1..], n);
      if later.None? && hs[0].Field? && hs[0].name == n then Some(hs[0].value) else later
  }

  function Or(o: Option<string>, s: string): string {
    match o case Some(v) => v case None => s
  }

  lemma {:induction false} ParsedLast(info: SipInfo, hs: seq<Header>, n: Name)
    requires Shared(n)
    ensures ParsedField(ReadHeaders(info, hs), n) == Or(LastValue(hs, n), ParsedField(info, n))
    decreases |hs|
  {
    if hs != [] && !hs[0].End? {
      ParsedLast(if hs[0].Skip? then info else SetField(info, hs[0].name, hs[0].value), hs[1..], n);
    }
  }

  function MethodNamed(cseq: string): string {
    Upper(SecondField(cseq))
  }

  /** The method of the first CSeq that names one. */
  function FirstMethod(hs: seq<Header>, named: string -> string): string
    decreases |hs|
  {
    if hs == [] || hs[0].End? then ""
    else if hs[0].Field? && hs[0].name == CSeq && named(hs[0].value) != "" then named(hs[0].value)
    else FirstMethod(hs[1..], named)
  }

  /** The last value of each header the parser knows; a response's method is the first its CSeq headers name. */
  function Intended(start: SipInfo, hs: seq<Header>): SipInfo {
    start.(
      callId := Or(LastValue(hs, CallId), start.callId), from := Or(LastValue(hs, From), start.from),
      to := Or(LastValue(hs, To), start.to), cseq := Or(LastValue(hs, CSeq), start.cseq),
      method_ := if start.kind == RESPONSE && start.method_ == "" then FirstMethod(hs, MethodNamed) else start.method_)
  }

  /** One header further: only a CSeq can name a method, and only for a response without one. */
  lemma {:induction false} OneHeader(info: SipInfo, hs: seq<Header>, named: string -> string) returns (next: SipInfo)
    requires hs != [] && !hs[0].End? && named == MethodNamed
    ensures ReadHeaders(info, hs) == ReadHeaders(next, hs[1..])
    ensures next.kind == info.kind && next.status == info.status && next.ruri == info.ruri
    ensures next.method_ ==
      if hs[0].Field? && hs[0].name == CSeq && info.kind == RESPONSE && info.method_ == "" then named(hs[0].value)
      else info.method_
  {
    next := if hs[0].Skip? then info else SetField(info, hs[0].name, hs[0].value);
  }

  lemma {:induction false} ReadsMethod(info: SipInfo, hs: seq<Header>, named: string -> string)
    requires named == MethodNamed
    ensures
      var r := ReadHeaders(info, hs);
      && r.kind == info.kind && r.status == info.status && r.ruri == info.ruri
      && r.method_ == if info.kind == RESPONSE && info.method_ == "" then FirstMethod(hs, named) else info.method_
    decreases |hs|
  {
    if hs != [] && !hs[0].End? {
      var next := OneHeader(info, hs, named);
      ReadsMethod(next, hs[1..], named);
    }
  }

  lemma ReadsIntended(start: SipInfo, hs: seq<Header>)
    ensures ReadHeaders(start, hs) == Intended(start, hs)
  {
    ReadsMethod(start, hs, MethodNamed);
    ParsedLast(start, hs, CallId);
    ParsedLast(start, hs, From);
    ParsedLast(start, hs, To);
    ParsedLast(start, hs, CSeq);
  }

  lemma {:induction false} StopsAtEnd(info: SipInfo, a: seq<Header>, b: seq<Header>)
    requires forall h :: h in a ==> h.Field?
    ensures ReadHeaders(info, a + ([End] + b)) == ReadHeaders(info, a)
    decreases |a|
  {
    if a == [] {
      assert a + ([End] + b) == [End] + b;
    } else {
      assert (a + ([End] + b))[1..] == a[1..] + ([End] + b);
      StopsAtEnd(SetField(info, a[0].name, a[0].value), a[1..], b);
    }
  }

  // ----- whole messages -----

  function MessageLines(start: string, hs: seq<Printed>, body: seq<string>): seq<string> {
    [start] + (HeaderLines(hs) + (["\r"] + body))
  }

  lemma HeadersThenBody(hs: seq<Printed>, body: seq<string>, read: string -> Header)
    requires AllPrintable(hs) && ReadsHeaders(read)
    ensures ReadLines(HeaderLines(hs) + (["\r"] + body), read) == Fields(hs) + ([End] + ReadLines(body, read))
  {
    ReadLinesAppend(HeaderLines(hs), ["\r"] + body, read);
    LinesRead(hs, read);
    ReadLinesCons("\r", body, read);
  }

  lemma AllLines(start: string, hs: seq<Printed>, body: seq<string>)
    requires OneLine(start) && AllPrintable(hs) && AllOneLine(body)
    ensures Lines(Terminated(MessageLines(start, hs, body))) == [start] + (HeaderLines(hs) + (["\r"] + (body + [""])))
  {
    LinesAreLines(hs);
    ThreeParts(start, HeaderLines(hs), body);
    LinesOfTerminated(MessageLines(start, hs, body));
  }

  lemma ThreeParts(start: string, headers: seq<string>, body: seq<string>)
    requires OneLine(start) && AllOneLine(headers) && AllOneLine(body)
    ensures AllOneLine([start] + (headers + (["\r"] + body)))
    ensures [start] + (headers + (["\r"] + body)) + [""] == [start] + (headers + (["\r"] + (body + [""])))
  {
    assert OneLine("\r");
  }

  lemma ParsedLines(msg: string, first: string, rest: seq<string>)
    requires Lines(msg) == [first] + rest
    ensures Parse(msg) == ReadHeaders(StartLine(first), HeadersOf(rest))
  {
    assert Lines(msg)[1..] == rest;
  }

  /** A message parses to what its start line says and the headers of its head, whatever its body. */
  lemma MessageParses(start: string, hs: seq<Printed>, body: seq<string>)
    requires OneLine(start) && AllPrintable(hs) && AllOneLine(body)
    ensures Parse(Terminated(MessageLines(start, hs, body))) == Intended(StartLine(start), Fields(hs))
  {
    HeaderOfReads();
    AllLines(start, hs, body);
    HeadersThenBody(hs, body + [""], HeaderOf);
    ParsedLines(Terminated(MessageLines(start, hs, body)), start, HeaderLines(hs) + (["\r"] + (body + [""])));
    StopsAtEnd(StartLine(start), Fields(hs), HeadersOf(body + [""]));
    ReadsIntended(StartLine(start), Fields(hs));
  }

  lemma RequestOneLine(m: string, uri: string, version: string)
    requires Word(m) && Word(uri) && Word(version)
    ensures OneLine(RequestLine(m, uri, version))
  {
  }

  /** A request: its method in upper case, its URI, and the last Call-ID, From, To and CSeq of its head. */
  lemma {:induction false} RequestParses(m: string, uri: string, version: string, hs: seq<Printed>, body: seq<string>)
    requires Word(m) && Word(uri) && Word(version) && !("SIP/" <= m) && AllPrintable(hs) && AllOneLine(body)
    ensures Parse(Terminated(MessageLines(RequestLine(m, uri, version), hs, body))) ==
      Intended(BLANK.(kind := REQUEST, method_ := Upper(m), ruri := uri), Fields(hs))
  {
    RequestLineReads(m, uri, version);
    RequestOneLine(m, uri, version);
    MessageParses(RequestLine(m, uri, version), hs, body);
  }

  function StatusLineText(version: string, code: string, reason: string): string {
    version + [' '] + (code + [' '] + reason) + ['\r']
  }

  /** A response: its status, the method of its first CSeq that names one, and the same headers. */
  lemma {:induction false} ResponseParses(version: string, code: string, reason: string, hs: seq<Printed>, body: seq<string>)
    requires "SIP/" <= version && Word(version)
    requires AllDigits(code) && code != "" && NatValue(code) < INT64_LIMIT
    requires reason != "" && !IsSpace(reason[|reason| - 1]) && OneLine(reason) && AllPrintable(hs) && AllOneLine(body)
    ensures Parse(Terminated(MessageLines(StatusLineText(version, code, reason), hs, body))) ==
      Intended(BLANK.(kind := RESPONSE, status := NatValue(code)), Fields(hs))
  {
    StatusLine(version, code, reason);
    StatusOneLine(version, code, reason);
    MessageParses(StatusLineText(version, code, reason), hs, body);
  }

  lemma StatusOneLine(version: string, code: string, reason: string)
    requires Word(version) && AllDigits(code) && OneLine(reason)
    ensures OneLine(StatusLineText(version, code, reason)) && ' ' !in version
  {
  }
}
