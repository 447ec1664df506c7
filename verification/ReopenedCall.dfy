/** The run of module Reopening with an actual call: its BYE, retention, and an INVITE that arrives late. */
module ReopenedCall {
  import opened Text
  import opened CallState
  import opened Pipeline
  import opened Record
  import opened RecordMaker
  import opened Reopening
  import EndToEnd
  import Sip
  import SipStart
  import P = SipParsed
  import SipEcho
  import SipEchoLaws

  /** A request with a Call-ID and nothing else. */
  function RequestText(m: string, uri: string, version: string, id: string): string {
    Sip.Terminated(P.MessageLines(SipStart.RequestLine(m, uri, version), [P.Printed(Sip.CALL_ID, id)], []))
  }

  predicate Printable(uri: string, id: string) {
    SipStart.Word(uri) && id != "" && SipEcho.CleanValue(id)
  }

  lemma OneField(id: string)
    ensures P.LastValue(P.Fields([P.Printed(Sip.CALL_ID, id)]), Sip.CallId) == Some(id)
  {
    var hs := [P.Printed(Sip.CALL_ID, id)];
    SipEchoLaws.CopiedNames();
    assert P.Fields(hs) == [P.FieldOf(hs[0])];
    assert P.Fields(hs)[1..] == [];
  }

  lemma RequestRead(m: string, uri: string, version: string, id: string)
    requires SipStart.Word(m) && SipStart.Word(version) && !("SIP/" <= m) && Printable(uri, id)
    ensures
      var info := Sip.Parse(RequestText(m, uri, version, id));
      info.kind == Sip.REQUEST && info.method_ == Upper(m) && info.callId == id
  {
    hide Sip.Parse, P.MessageLines, P.Fields, P.LastValue, P.FirstMethod, Upper;
    SipEchoLaws.CopiedNames();
    P.RequestParses(m, uri, version, [P.Printed(Sip.CALL_ID, id)], []);
    OneField(id);
  }

  lemma RequestLength(m: string, uri: string, version: string, id: string)
    ensures |RequestText(m, uri, version, id)| == |m| + |uri| + |version| + |id| + 17
  {
    var hs, body: seq<string> := [P.Printed(Sip.CALL_ID, id)], [];
    var first := SipStart.RequestLine(m, uri, version);
    assert P.HeaderLines(hs) == [P.LineOf(hs[0])];
    var ls := [first, P.LineOf(hs[0]), "\r"];
    assert P.MessageLines(first, hs, body) == ls;
    assert Sip.Terminated(ls) == ls[0] + ['\n'] + Sip.Terminated(ls[1..]);
    assert Sip.Terminated(ls[1..]) == ls[1] + ['\n'] + Sip.Terminated(ls[1..][1..]);
    assert ls[1..][1..] == ["\r"] && ["\r"][1..] == [];
  }

  lemma {:induction false} Utf8AtMost(s: string)
    ensures Utf8Length(s) <= 4 * |s|
  {
    if s != "" {
      Utf8AtMost(s[1..]);
    }
  }

  /** One of the two requests, with all that a run with it asks for. */
  lemma {:induction false} OneRequest(m: string, uri: string, version: string, id: string, meta: Meta)
    requires SipStart.Word(m) && SipStart.Word(version) && !("SIP/" <= m) && Printable(uri, id)
    requires |m| + |uri| + |version| + |id| <= 65000 && Int64(meta.tsMs) && Int64(meta.hepNodeId)
    ensures Representable(meta, RequestText(m, uri, version, id))
    ensures |RequestText(m, uri, version, id)| >= |m| + |version| + |uri| + |id| + 17
  {
    hide RequestText, Utf8Length;
    RequestLength(m, uri, version, id);
    Utf8AtMost(RequestText(m, uri, version, id));
  }

  lemma UpperKeeps(s: string)
    requires forall i :: 0 <= i < |s| ==> 'A' <= s[i] <= 'Z'
    ensures Upper(s) == s
  {
  }

  const BYE := "BYE"
  const INVITE := "INVITE"
  const VERSION := SipEchoLaws.SIP_VERSION

  lemma Words()
    ensures SipStart.Word(BYE) && SipStart.Word(INVITE) && SipStart.Word(VERSION)
    ensures !("SIP/" <= BYE) && !("SIP/" <= INVITE) && Upper(BYE) == BYE && Upper(INVITE) == INVITE
  {
    UpperKeeps(BYE);
    UpperKeeps(INVITE);
    assert INVITE[0] == 'I' && "SIP/"[0] == 'S';
  }

  /**
   For every URI and Call-ID: a call whose BYE was stored comes back open when retention has deleted its row and an
   INVITE with its Call-ID follows. Both messages are long enough to be handled, and workers print just their records.
   */
  lemma {:induction false} ClosedCallReopens(uri: string, id: string, meta: Meta, meta2: Meta, base64: string -> string)
    returns (before: seq<Step>, mid: State, after: seq<Step>, end: State)
    requires Printable(uri, id) && |uri| + |id| <= 60000
    requires Int64(meta.tsMs) && Int64(meta.hepNodeId) && Int64(meta2.tsMs) && Int64(meta2.hepNodeId)
    requires meta2.agent == meta.agent
    ensures |RequestText(BYE, uri, VERSION, id)| >= 20
    ensures |RequestText(INVITE, uri, VERSION, id)| >= 20
    ensures Run(START, before, mid, ReadRecord) && Run(mid, after, end, ReadRecord)
    ensures EndToEnd.StepsCarryMessages(before + after, base64)
    ensures (id, meta.agent) in mid.tables.calls && mid.tables.calls[(id, meta.agent)].open == 0
    ensures (id, meta.agent) in end.tables.calls && end.tables.calls[(id, meta.agent)].open == 1
  {
    hide RequestText, Sip.Parse, Run, ReadRecord, EndToEnd.StepsCarryMessages;
    Words();
    OneRequest(BYE, uri, VERSION, id, meta);
    OneRequest(INVITE, uri, VERSION, id, meta2);
    RequestRead(BYE, uri, VERSION, id);
    RequestRead(INVITE, uri, VERSION, id);
    before, mid, after, end := MessagesReopen(
      meta, RequestText(BYE, uri, VERSION, id), meta2, RequestText(INVITE, uri, VERSION, id), base64);
  }
}
