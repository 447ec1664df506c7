/** The echo reply read back: it is itself a message, with the copied headers and some of its own. */
module SipEchoLaws {
  import opened Text
  import opened Sip
  import opened SipLaws
  import opened SipEcho
  import opened SipStart
  import opened SipParsed

  // ----- the reply as a message -----

  function CopiedHeaders(e: EchoHeaders): seq<Printed> {
    [Printed(VIA, e.via), Printed(FROM, e.from), Printed(TO, e.to), Printed(CALL_ID, e.callId), Printed(CSEQ, e.cseq)]
  }

  function OwnHeaders(method_: string, contact: string, server: string): seq<Printed> {
    [Printed(CONTACT, contact), Printed(SERVER, server)]
    + (if method_ == "OPTIONS" then [Printed(ALLOW, ALLOWED)] else [])
    + [Printed(CONTENT_LENGTH, "0")]
  }

  function ContactOf(host: string, port: int): string {
    "<sip:" + host + ":" + IntText(port) + ">"
  }

  function ServerOf(): string {
    "Zaman/" + VERSION
  }

  lemma ReplyIsMessage(e: EchoHeaders, m: string, host: string, port: int)
    ensures ReplyLines(e, m, host, port) ==
      MessageLines(StatusText(m), CopiedHeaders(e) + OwnHeaders(m, ContactOf(host, port), ServerOf()), [])
  {
  }

  lemma CopiedNames()
    ensures PlainName(VIA) && PlainName(FROM) && PlainName(TO) && PlainName(CALL_ID) && PlainName(CSEQ)
    ensures NameOf(Lower(VIA)) == Via && NameOf(Lower(FROM)) == From && NameOf(Lower(TO)) == To
    ensures NameOf(Lower(CALL_ID)) == CallId && NameOf(Lower(CSEQ)) == CSeq
  {
    assert Lower(VIA) == "via" && Lower(FROM) == "from" && Lower(TO) == "to";
    assert Lower(CALL_ID) == "call-id" && Lower(CSEQ) == "cseq";
  }

  lemma OwnNames()
    ensures PlainName(CONTACT) && PlainName(SERVER) && PlainName(ALLOW) && PlainName(CONTENT_LENGTH)
    ensures NameOf(Lower(CONTACT)) == Other && NameOf(Lower(SERVER)) == Other && NameOf(Lower(ALLOW)) == Other
    ensures NameOf(Lower(CONTENT_LENGTH)) == Other
  {
    var w := Lower(CONTACT);
    assert w[1] == 'o' && "call-id"[1] == 'a';
    assert |Lower(SERVER)| == 6 && |Lower(ALLOW)| == 5;
  }

  lemma ContactIsClean(host: string, port: int)
    requires OneLine(host)
    ensures CleanValue(ContactOf(host, port))
  {
    var v := ContactOf(host, port);
    assert v[0] == '<' && v[|v| - 1] == '>';
  }

  lemma OthersAreClean()
    ensures CleanValue(ServerOf()) && CleanValue(ALLOWED) && CleanValue("0")
  {
  }

  lemma ReplyNames(e: EchoHeaders, m: string, contact: string, server: string)
    ensures NamesPlain(CopiedHeaders(e) + OwnHeaders(m, contact, server))
  {
    CopiedNames();
    OwnNames();
  }

  lemma ReplyPrintable(e: EchoHeaders, m: string, contact: string, server: string)
    requires AllOk(e, CleanValue) && CleanValue(contact) && CleanValue(server)
    ensures AllPrintable(CopiedHeaders(e) + OwnHeaders(m, contact, server))
  {
    OthersAreClean();
    ReplyNames(e, m, contact, server);
  }

  // ----- what it reads as -----

  lemma {:induction false} LastAt(hs: seq<Header>, n: Name, k: nat)
    requires k < |hs| && (forall h :: h in hs ==> h.Field?) && hs[k].name == n
    requires forall j :: k < j < |hs| ==> hs[j].name != n
    ensures LastValue(hs, n) == Some(hs[k].value)
    decreases |hs|
  {
    assert hs[0] in hs;
    if k > 0 {
      LastAt(hs[1..], n, k - 1);
    } else {
      NoneOf(hs[1..], n);
    }
  }

  lemma {:induction false} NoneOf(hs: seq<Header>, n: Name)
    requires forall h :: h in hs ==> h.Field? && h.name != n
    ensures LastValue(hs, n) == None
    decreases |hs|
  {
    if hs != [] {
      assert hs[0] in hs;
      NoneOf(hs[1..], n);
    }
  }

  lemma {:induction false} OnlyMethod(hs: seq<Header>, k: nat, named: string -> string)
    requires k < |hs| && (forall h :: h in hs ==> h.Field?)
    requires forall j :: 0 <= j < |hs| ==> (hs[j].name == CSeq <==> j == k)
    ensures FirstMethod(hs, named) == named(hs[k].value)
    decreases |hs|
  {
    assert hs[0] in hs;
    if k > 0 {
      OnlyMethod(hs[1..], k - 1, named);
    } else {
      NoMethod(hs[1..], named);
    }
  }

  lemma {:induction false} NoMethod(hs: seq<Header>, named: string -> string)
    requires forall h :: h in hs ==> h.Field? && h.name != CSeq
    ensures FirstMethod(hs, named) == ""
    decreases |hs|
  {
    if hs != [] {
      assert hs[0] in hs;
      NoMethod(hs[1..], named);
    }
  }

  /** The fields a response takes from its copied headers. */
  function Answered(start: SipInfo, e: EchoHeaders): SipInfo {
    start.(from := e.from, to := e.to, callId := e.callId, cseq := e.cseq, method_ := Upper(SecondField(e.cseq)))
  }

  /** Five headers, each of its own name, and others behind them. */
  predicate InReplyOrder(hs: seq<Header>, e: EchoHeaders) {
    && |hs| >= 5 && (forall h :: h in hs ==> h.Field?)
    && hs[0].name == Via && hs[1] == Field(From, e.from) && hs[2] == Field(To, e.to)
    && hs[3] == Field(CallId, e.callId) && hs[4] == Field(CSeq, e.cseq)
    && forall j :: 5 <= j < |hs| ==> hs[j].name == Other
  }

  lemma CopiedFields(e: EchoHeaders)
    ensures Fields(CopiedHeaders(e)) ==
      [Field(Via, e.via), Field(From, e.from), Field(To, e.to), Field(CallId, e.callId), Field(CSeq, e.cseq)]
  {
    CopiedNames();
  }

  lemma OwnFields(m: string, contact: string, server: string)
    ensures forall f :: f in Fields(OwnHeaders(m, contact, server)) ==> f.Field? && f.name == Other
  {
    OwnNames();
    var hs := OwnHeaders(m, contact, server);
    assert forall h :: h in hs ==> NameOf(Lower(h.name)) == Other;
  }

  lemma ReplyFields(e: EchoHeaders, m: string, contact: string, server: string)
    ensures InReplyOrder(Fields(CopiedHeaders(e) + OwnHeaders(m, contact, server)), e)
  {
    CopiedFields(e);
    OwnFields(m, contact, server);
  }

  lemma InOrderReads(start: SipInfo, hs: seq<Header>, e: EchoHeaders)
    requires InReplyOrder(hs, e) && start.kind == RESPONSE && start.method_ == ""
    ensures Intended(start, hs) == Answered(start, e)
  {
    LastAt(hs, From, 1);
    LastAt(hs, To, 2);
    LastAt(hs, CallId, 3);
    LastAt(hs, CSeq, 4);
    OnlyMethod(hs, 4, MethodNamed);
  }

  const SIP_VERSION := "SIP/2.0"

  /** The response a reply to a request of this method starts with. */
  function ReplyStart(method_: string): SipInfo {
    BLANK.(kind := RESPONSE, status := if method_ == "REGISTER" then 401 else 200)
  }

  lemma {:induction false} StatusReads(line: string, version: string, code: string, reason: string, n: nat)
    requires line == version + [' '] + (code + [' '] + reason) + ['\r']
    requires "SIP/" <= version && ' ' !in version
    requires AllDigits(code) && code != "" && NatValue(code) == n < INT64_LIMIT
    requires reason != "" && !IsSpace(reason[|reason| - 1])
    ensures StartLine(line) == BLANK.(kind := RESPONSE, status := n)
  {
    StatusLine(version, code, reason);
  }

  const OK_CODE := "200"
  const OK_REASON := "OK"
  const UNAUTHORIZED_CODE := "401"
  const UNAUTHORIZED_REASON := "Unauthorized"

  lemma StatusTexts()
    ensures OK_LINE == SIP_VERSION + [' '] + (OK_CODE + [' '] + OK_REASON) + ['\r']
    ensures UNAUTHORIZED_LINE == SIP_VERSION + [' '] + (UNAUTHORIZED_CODE + [' '] + UNAUTHORIZED_REASON) + ['\r']
    ensures OneLine(OK_LINE) && OneLine(UNAUTHORIZED_LINE)
  {
  }

  lemma StatusCodes()
    ensures AllDigits(OK_CODE) && NatValue(OK_CODE) == 200
    ensures AllDigits(UNAUTHORIZED_CODE) && NatValue(UNAUTHORIZED_CODE) == 401
  {
    ThreeDigits(OK_CODE);
    ThreeDigits(UNAUTHORIZED_CODE);
  }

  lemma ReplyStatus(method_: string, text: string)
    requires text == StatusText(method_)
    ensures StartLine(text) == ReplyStart(method_) && OneLine(text)
  {
    StatusTexts();
    StatusCodes();
    if method_ == "REGISTER" {
      StatusReads(text, SIP_VERSION, UNAUTHORIZED_CODE, UNAUTHORIZED_REASON, 401);
    } else {
      StatusReads(text, SIP_VERSION, OK_CODE, OK_REASON, 200);
    }
  }

  /**
   Reading the reply to any request: a response, 401 exactly when the request was a REGISTER, with the
   request's headers as collected, and the method named by its CSeq. Nothing is sent for a response.
   */
  lemma ReplyReadBack(msg: string, host: string, port: int)
    requires OneLine(host)
    ensures if Parse(msg).kind == REQUEST
      then Parse(Echo(msg, host, port)) == Answered(ReplyStart(Parse(msg).method_), Copied(msg))
      else Echo(msg, host, port) == ""
  {
    CopiedAreClean(msg);
    ReplyText(Parse(msg).method_, Copied(msg), host, port);
  }

  lemma ReplyText(m: string, e: EchoHeaders, host: string, port: int)
    requires AllOk(e, CleanValue) && OneLine(host)
    ensures Parse(Terminated(ReplyLines(e, m, host, port))) == Answered(ReplyStart(m), e)
  {
    var contact, server := ContactOf(host, port), ServerOf();
    var hs := CopiedHeaders(e) + OwnHeaders(m, contact, server);
    ReplyStatus(m, StatusText(m));
    ReplyIsMessage(e, m, host, port);
    ContactIsClean(host, port);
    OthersAreClean();
    ReplyPrintable(e, m, contact, server);
    MessageParses(StatusText(m), hs, []);
    ReplyFields(e, m, contact, server);
    InOrderReads(ReplyStart(m), Fields(hs), e);
  }
}
