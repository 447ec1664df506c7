/** Exactly when the reply carries the fields the parser read in the request: the two loops start one line apart. */
module SipEchoExact {
  import opened Text
  import opened Sip
  import opened SipLaws
  import opened SipEcho
  import opened SipParsed
  import opened SipEchoLaws

  function EchoField(e: EchoHeaders, n: Name): string {
    match n
    case From => e.from
    case To => e.to
    case CallId => e.callId
    case CSeq => e.cseq
    case _ => ""
  }

  lemma {:induction false} EchoLast(e: EchoHeaders, hs: seq<Header>, n: Name)
    requires Shared(n)
    ensures EchoField(ReadEcho(e, hs), n) == Or(LastValue(hs, n), EchoField(e, n))
    decreases |hs|
  {
    if hs != [] && !hs[0].End? {
      EchoLast(if hs[0].Skip? then e else SetEcho(e, hs[0].name, hs[0].value), hs[1..], n);
    }
  }

  /**
   The first line, read as a header, does no harm: it is no header; or one that is not shared, is empty, or is
   overwritten later; or it is blank and there is no shared header to lose.
   */
  ghost predicate FirstLineHarmless(first: Header, hs: seq<Header>) {
    match first
    case Skip => true
    case Field(n, v) => !Shared(n) || v == "" || LastValue(hs, n).Some?
    case End => forall n :: Shared(n) ==> Or(LastValue(hs, n), "") == ""
  }

  lemma OneField(start: SipInfo, first: Header, hs: seq<Header>, n: Name)
    requires Shared(n) && ParsedField(start, n) == ""
    ensures ParsedField(ReadHeaders(start, hs), n) == Or(LastValue(hs, n), "")
    ensures EchoField(ReadEcho(NO_HEADERS, [first] + hs), n) ==
      if first.End? then ""
      else Or(LastValue(hs, n), if first.Field? && first.name == n then first.value else "")
  {
    ParsedLast(start, hs, n);
    EchoLast(NO_HEADERS, [first] + hs, n);
    assert ([first] + hs)[1..] == hs;
  }

  lemma FieldsAgree(start: SipInfo, first: Header, hs: seq<Header>)
    requires forall n :: Shared(n) ==> ParsedField(start, n) == ""
    ensures FirstLineHarmless(first, hs) <==>
      forall n :: Shared(n) ==>
        EchoField(ReadEcho(NO_HEADERS, [first] + hs), n) == ParsedField(ReadHeaders(start, hs), n)
  {
    forall n | Shared(n)
      ensures ParsedField(ReadHeaders(start, hs), n) == Or(LastValue(hs, n), "")
      ensures EchoField(ReadEcho(NO_HEADERS, [first] + hs), n) ==
        if first.End? then ""
        else Or(LastValue(hs, n), if first.Field? && first.name == n then first.value else "")
    {
      OneField(start, first, hs, n);
    }
  }

  predicate SameCall(a: SipInfo, b: SipInfo) {
    a.callId == b.callId && a.from == b.from && a.to == b.to && a.cseq == b.cseq
  }

  lemma SameCallIsFields(a: SipInfo, start: SipInfo, e: EchoHeaders)
    ensures SameCall(Answered(start, e), a) <==> forall n :: Shared(n) ==> EchoField(e, n) == ParsedField(a, n)
  {
    if forall n :: Shared(n) ==> EchoField(e, n) == ParsedField(a, n) {
      assert Shared(From) && Shared(To) && Shared(CallId) && Shared(CSeq);
    }
  }

  /**
   The reply, parsed, has the request's Call-ID, From, To and CSeq exactly when the first line does no harm;
   its method is then the one the request's CSeq names.
   */
  lemma ReplyCarriesCall(msg: string, host: string, port: int)
    requires OneLine(host)
    ensures Parse(msg).kind == REQUEST ==>
      var first, later := HeaderOf(Lines(msg)[0]), HeadersOf(Lines(msg)[1..]);
      var reply := Parse(Echo(msg, host, port));
      && (SameCall(reply, Parse(msg)) <==> FirstLineHarmless(first, later))
      && (SameCall(reply, Parse(msg)) ==> reply.method_ == Upper(SecondField(Parse(msg).cseq)))
  {
    ReplyReadBack(msg, host, port);
    RequestCarries(msg);
  }

  /** The headers copied from a message agree with the parsed ones exactly when its first line does no harm. */
  lemma RequestCarries(msg: string)
    ensures SameCall(Answered(ReplyStart(Parse(msg).method_), Copied(msg)), Parse(msg)) <==>
      FirstLineHarmless(HeaderOf(Lines(msg)[0]), HeadersOf(Lines(msg)[1..]))
  {
    var lines := Lines(msg);
    FieldsAgree(StartLine(lines[0]), HeaderOf(lines[0]), HeadersOf(lines[1..]));
    SameCallIsFields(Parse(msg), ReplyStart(Parse(msg).method_), Copied(msg));
  }

  lemma SingleLine(msg: string)
    requires OneLine(msg)
    ensures Lines(msg) == [msg] && Parse(msg) == StartLine(msg) && HeadersOf(Lines(msg)) == [HeaderOf(msg)]
  {
    assert Lines(msg)[1..] == [];
  }

  lemma OneHeaderCopied(v: string)
    ensures ReadEcho(NO_HEADERS, [Field(From, v)]).from == v
  {
    assert [Field(From, v)][1..] == [];
  }

  /** A request that is one line, read as a From header: the parser finds no From in it, the reply carries the line's. */
  lemma FirstLineEchoed(msg: string, v: string, host: string, port: int)
    requires OneLine(msg) && OneLine(host) && StartLine(msg).kind == REQUEST && HeaderOf(msg) == Field(From, v)
    ensures Parse(msg).from == "" && Parse(Echo(msg, host, port)).from == v
  {
    SingleLine(msg);
    OneHeaderCopied(v);
    ReplyReadBack(msg, host, port);
  }

  lemma LineReads(line: string, name: string, v: string)
    requires PlainName(name) && Trimmed(v) && v != "" && line == name + [':'] + ([' '] + v)
    ensures HeaderOf(line) == Field(NameOf(Lower(name)), v)
  {
    hide HeaderOf, NameOf, Lower, PlainName;
    var r := [' '] + v;
    HeaderLine(name, r);
    assert r[|r| - 1] == v[|v| - 1] && r[1..] == v;
  }

  lemma LineStarts(line: string, name: string, r: string)
    requires PlainName(name) && name[0] != 'S' && line == name + [':'] + r
    ensures StartLine(line).kind == REQUEST
  {
    hide CutAt, ScanInt, Upper, Trim;
    TrimHeader(name, r);
    assert Trim(line)[0] == name[0];
  }

  /** Such a request is the word From, a colon and any value, and it has the 20 bytes below which a packet is dropped. */
  lemma FromLine(msg: string, v: string, host: string, port: int)
    requires CleanValue(v) && |v| >= 14 && msg == FROM + [':'] + ([' '] + v) && OneLine(host)
    ensures |msg| >= 20 && Parse(msg).kind == REQUEST
    ensures Parse(msg).from == "" && Parse(Echo(msg, host, port)).from == v
  {
    hide HeaderOf, StartLine, Parse, Echo;
    CopiedNames();
    LineReads(msg, FROM, v);
    LineStarts(msg, FROM, [' '] + v);
    SingleLine(msg);
    FirstLineEchoed(msg, v, host, port);
  }

  // ----- which requests are echoed -----

  /** Whether requests with this method are echoed: all of them, or those of a comma-separated list. */
  predicate EchoAllowed(method_: string, echoAll: bool, listed: string) {
    echoAll || Lower(listed) == "all" || exists m :: m in Split(listed, ',') && Lower(Trim(m)) == Lower(method_)
  }

  lemma SpaceIsOther(s: string, j: nat)
    requires j < |s| && s[j] == ' '
    ensures NameOf(s) == Other
  {
  }

  lemma LowerOfUpper(s: string)
    ensures Lower(Upper(s)) == Lower(s)
  {
  }

  lemma UpperKeepsColon(s: string)
    ensures ':' in s ==> ':' in Upper(s)
  {
    if ':' in s {
      var j :| 0 <= j < |s| && s[j] == ':';
      assert Upper(s)[j] == ':';
    }
  }

  /** The name in front of a colon, when the first word has none. */
  lemma NameFromWord(head: string, more: string)
    requires head != "" && Trimmed(head) && (more == "" || more[0] == ' ') && NameOf(Lower(head)) == Other
    ensures NameOf(Lower(Trim(head + more))) == Other
  {
    hide NameOf;
    var n := |head| - 1;
    TrimRightKeeps(head[..n], head[n], more);
    assert head[..n] + [head[n]] == head;
    var r := TrimRight(more);
    assert Trim(head + more) == head + r;
    if r == "" {
      assert head + r == head;
    } else {
      SpaceIsOther(Lower(head + r), |head|);
    }
  }

  lemma WordBeforeColon(t: string, i: nat)
    requires IndexOf(t, ':') == i
    requires
      var head := CutAt(t, ' ').0;
      head != "" && Trimmed(head) && ':' !in head && NameOf(Lower(head)) == Other
    ensures NameOf(Lower(Trim(t[..i]))) == Other
  {
    hide NameOf, Lower, Trim, IndexOf;
    var head := CutAt(t, ' ').0;
    assert |head| <= i && (|head| < i ==> t[|head|] == ' ');
    assert t[..i] == head + t[|head|..i];
    NameFromWord(head, t[|head|..i]);
  }

  lemma UpperKeepsTrimmed(s: string)
    requires Trimmed(Upper(s))
    ensures Trimmed(s)
  {
    if s != "" {
      assert Upper(s)[0] == UpperChar(s[0]) && Upper(s)[|s| - 1] == UpperChar(s[|s| - 1]);
    }
  }

  /** A first line whose method is no header name does no harm. */
  lemma MethodIsHarmless(line: string)
    requires
      var m := StartLine(line).method_;
      m != "" && Trimmed(m) && ':' !in m && NameOf(Lower(m)) == Other
    ensures HeaderOf(line).Skip? || (HeaderOf(line).Field? && HeaderOf(line).name == Other)
  {
    hide NameOf, Lower, Upper, Trim, Trimmed, IndexOf, CutAt, ScanInt;
    var t := Trim(line);
    var head := CutAt(t, ' ').0;
    LowerOfUpper(head);
    UpperKeepsTrimmed(head);
    UpperKeepsColon(head);
    WordInText(t);
    if IndexOf(t, ':') >= 1 {
      WordBeforeColon(t, IndexOf(t, ':'));
    }
  }

  lemma WordInText(t: string)
    ensures CutAt(t, ' ').0 != "" ==> t != ""
  {
  }

  /** So the reply to a request whose method is no header name always carries the call. */
  lemma MethodKeepsCall(msg: string, host: string, port: int)
    requires OneLine(host) && Parse(msg).kind == REQUEST
    requires
      var m := Parse(msg).method_;
      m != "" && Trimmed(m) && ':' !in m && NameOf(Lower(m)) == Other
    ensures SameCall(Parse(Echo(msg, host, port)), Parse(msg))
  {
    hide HeaderOf, StartLine, Echo, NameOf;
    var first := Lines(msg)[0];
    ReadsMethod(StartLine(first), HeadersOf(Lines(msg)[1..]), MethodNamed);
    MethodIsHarmless(first);
    ReplyCarriesCall(msg, host, port);
  }

  lemma ListedAlone(m: string, listed: string)
    requires listed != "" && Trimmed(listed) && ',' !in listed && Lower(listed) != "all" && EchoAllowed(m, false, listed)
    ensures Lower(m) == Lower(listed)
  {
    hide Lower, IndexOf;
    assert Split(listed, ',') == [listed];
    assert Trim(listed) == listed;
  }

  lemma PlainMethod(m: string, listed: string)
    requires listed == "OPTIONS" && Lower(m) == Lower(listed)
    ensures m != "" && Trimmed(m) && ':' !in m && NameOf(Lower(m)) == Other
  {
    assert forall j :: 0 <= j < |m| ==> LowerChar(m[j]) == Lower(m)[j] == LowerChar(listed[j]);
    assert Lower(m)[0] == 'o';
  }

  /** With the default list, which is OPTIONS alone, it does for every request that is echoed. */
  lemma DefaultEchoCarriesCall(msg: string, listed: string, host: string, port: int)
    requires listed == "OPTIONS" && OneLine(host)
    requires Parse(msg).kind == REQUEST && EchoAllowed(Parse(msg).method_, false, listed)
    ensures SameCall(Parse(Echo(msg, host, port)), Parse(msg))
  {
    hide Parse, Echo, NameOf, Lower;
    assert Trimmed(listed) && Lower(listed)[0] == 'o' && "all"[0] == 'a';
    ListedAlone(Parse(msg).method_, listed);
    PlainMethod(Parse(msg).method_, listed);
    MethodKeepsCall(msg, host, port);
  }
}
