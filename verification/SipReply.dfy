/** The text of an echo reply, line by line. */
module SipReply {
  import opened Text
  import opened Sip
  import opened SipLaws
  import opened SipEcho
  import opened SipParsed
  import opened SipEchoLaws
  import opened SipMethods
  import SipEchoExact

  lemma {:induction false} DropBlanks(s: string, gap: string)
    requires AllBlank(gap) && (s == "" || !IsSpace(s[|s| - 1]))
    ensures TrimRight(s + gap) == s
  {
    if gap == "" {
      assert s + gap == s;
    } else {
      var n := |gap| - 1;
      assert (s + gap)[..|s| + n] == s + gap[..n];
      BlankIsSpace(gap[n]);
      DropBlanks(s, gap[..n]);
    }
  }

  /** A method in the list of those echoed is echoed, in any case, wherever it stands and whatever white space is around it. */
  lemma {:induction false} EchoListed(parts: seq<string>, i: nat, gap0: string, w: string, gap1: string, m: string)
    requires i < |parts| && forall k :: 0 <= k < |parts| ==> ',' !in parts[k]
    requires parts[i] == gap0 + (w + gap1) && AllBlank(gap0) && AllBlank(gap1) && w != "" && Trimmed(w)
    requires Lower(w) == Lower(m)
    ensures SipEchoExact.EchoAllowed(m, false, Join(parts, ','))
  {
    hide Split, Join, Lower, TrimLeft, TrimRight;
    SplitJoin(parts, ',');
    BlankIsSpace(w[0]);
    SkipBlanks(gap0, w + gap1);
    DropBlanks(w, gap1);
    assert Trim(parts[i]) == w;
  }

  /** The first Via with a value, before the headers end. */
  function FirstVia(hs: seq<Header>): string
    decreases |hs|
  {
    if hs == [] || hs[0].End? then ""
    else if hs[0].Field? && hs[0].name == Via && hs[0].value != "" then hs[0].value
    else FirstVia(hs[1..])
  }

  lemma {:induction false} ViaKept(e: EchoHeaders, hs: seq<Header>)
    ensures ReadEcho(e, hs).via == if e.via != "" then e.via else FirstVia(hs)
    decreases |hs|
  {
    if hs != [] && !hs[0].End? {
      ViaKept(if hs[0].Skip? then e else SetEcho(e, hs[0].name, hs[0].value), hs[1..]);
    }
  }

  /** The value of the last header of this name, or nothing. */
  function LastOr(hs: seq<Header>, n: Name): string {
    Or(LastValue(hs, n), "")
  }

  /** What the echo loop copies from a list of headers. */
  lemma EchoCopies(hs: seq<Header>)
    ensures
      var e := ReadEcho(NO_HEADERS, hs);
      && e.via == FirstVia(hs) && e.from == LastOr(hs, From) && e.to == LastOr(hs, To)
      && e.callId == LastOr(hs, CallId) && e.cseq == LastOr(hs, CSeq)
  {
    hide ReadEcho, LastValue;
    ViaKept(NO_HEADERS, hs);
    SipEchoExact.EchoLast(NO_HEADERS, hs, From);
    SipEchoExact.EchoLast(NO_HEADERS, hs, To);
    SipEchoExact.EchoLast(NO_HEADERS, hs, CallId);
    SipEchoExact.EchoLast(NO_HEADERS, hs, CSeq);
  }

  lemma Spelled(v: string)
    ensures HeaderText(VIA, v) == "Via: " + v + "\r" && HeaderText(FROM, v) == "From: " + v + "\r"
    ensures HeaderText(TO, v) == "To: " + v + "\r" && HeaderText(CALL_ID, v) == "Call-ID: " + v + "\r"
    ensures HeaderText(CSEQ, v) == "CSeq: " + v + "\r" && HeaderText(CONTACT, v) == "Contact: " + v + "\r"
    ensures HeaderText(SERVER, v) == "Server: " + v + "\r" && HeaderText(ALLOW, v) == "Allow: " + v + "\r"
    ensures HeaderText(CONTENT_LENGTH, v) == "Content-Length: " + v + "\r"
  {
  }

  const SOFTWARE := "Zaman/0.4.0"

  /** The lines a reply should have. */
  function Expected(hs: seq<Header>, m: string, host: string, port: int): seq<string> {
    [if m == "REGISTER" then "SIP/2.0 401 Unauthorized\r" else "SIP/2.0 200 OK\r",
     "Via: " + FirstVia(hs) + "\r", "From: " + LastOr(hs, From) + "\r", "To: " + LastOr(hs, To) + "\r",
     "Call-ID: " + LastOr(hs, CallId) + "\r", "CSeq: " + LastOr(hs, CSeq) + "\r",
     "Contact: " + ("<sip:" + host + ":" + IntText(port) + ">") + "\r", "Server: " + SOFTWARE + "\r"]
    + (if m == "OPTIONS" then ["Allow: " + "INVITE,ACK,BYE,CANCEL,OPTIONS,REGISTER,INFO" + "\r"] else [])
    + ["Content-Length: " + "0" + "\r", "\r"]
  }

  lemma ReplyIsExpected(hs: seq<Header>, m: string, host: string, port: int)
    ensures ReplyLines(ReadEcho(NO_HEADERS, hs), m, host, port) == Expected(hs, m, host, port)
  {
    hide HeaderText, ReadEcho, FirstVia, LastOr, IntText;
    EchoCopies(hs);
    var e := ReadEcho(NO_HEADERS, hs);
    Spelled(e.via);
    Spelled(e.from);
    Spelled(e.to);
    Spelled(e.callId);
    Spelled(e.cseq);
    Spelled("<sip:" + host + ":" + IntText(port) + ">");
    Spelled("0");
    Spelled(ALLOWED);
    assert "Zaman/" + VERSION == SOFTWARE;
    Spelled(SOFTWARE);
  }

  /**
   The reply to a request, line by line: the status, the request's first Via and its last From, To, Call-ID and CSeq, the
   collector's own headers, an Allow for OPTIONS, and nothing behind the blank line.
   */
  lemma ReplyStands(msg: string, host: string, port: int)
    requires OneLine(host) && Parse(msg).kind == REQUEST
    ensures Lines(Echo(msg, host, port)) == Expected(HeadersOf(Lines(msg)), Parse(msg).method_, host, port) + [""]
  {
    hide Parse, ReplyLines, Expected, ReadEcho, HeadersOf, Lines, Terminated;
    var hs, m := HeadersOf(Lines(msg)), Parse(msg).method_;
    ReplyIsExpected(hs, m, host, port);
    CopiedAreClean(msg);
    RepliesAreLines(ReadEcho(NO_HEADERS, hs), m, host, port);
    LinesOfTerminated(ReplyLines(ReadEcho(NO_HEADERS, hs), m, host, port));
  }

  lemma RepliesAreLines(e: EchoHeaders, m: string, host: string, port: int)
    requires AllOk(e, CleanValue) && OneLine(host)
    ensures forall l :: l in ReplyLines(e, m, host, port) ==> OneLine(l)
  {
    hide CleanValue, ReplyLines, MessageLines, AllPrintable;
    var contact, server := ContactOf(host, port), ServerOf();
    var hs := CopiedHeaders(e) + OwnHeaders(m, contact, server);
    ReplyIsMessage(e, m, host, port);
    ReplyStatus(m, StatusText(m));
    ContactIsClean(host, port);
    OthersAreClean();
    ReplyPrintable(e, m, contact, server);
    MessageIsLines(StatusText(m), hs);
  }

  lemma MessageIsLines(start: string, hs: seq<Printed>)
    requires OneLine(start) && AllPrintable(hs)
    ensures forall l :: l in MessageLines(start, hs, []) ==> OneLine(l)
  {
    hide AllPrintable, HeaderLines;
    LinesAreLines(hs);
    ThreeParts(start, HeaderLines(hs), []);
  }
}
