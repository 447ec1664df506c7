/** Which method a CSeq names, what compact header names stand for, and what a record says of both. */
module SipMethods {
  import opened Text
  import opened Sip
  import opened SipLaws
  import opened SipEcho
  import opened SipStart
  import opened SipParsed
  import opened SipEchoLaws
  import CallState
  import RecordMaker

  // ----- the second word of a text -----

  predicate Blank(c: char) {
    c == ' ' || c == '\t' || c == '\n' || c == '\r' || c == 11 as char || c == 12 as char
  }

  predicate AllBlank(s: string) {
    forall i :: 0 <= i < |s| ==> Blank(s[i])
  }

  predicate NoBlank(s: string) {
    forall i :: 0 <= i < |s| ==> !Blank(s[i])
  }

  predicate BlankFirst(s: string) {
    s == "" || Blank(s[0])
  }

  lemma BlankIsSpace(c: char)
    ensures Blank(c) <==> IsSpace(c)
  {
  }

  lemma SkipBlanks(gap: string, s: string)
    requires AllBlank(gap) && (s == "" || !Blank(s[0]))
    ensures TrimLeft(gap + s) == s
  {
    hide TrimLeft, IsSpace, Blank;
    var x := gap + s;
    var t := TrimLeft(x);
    if |t| > |s| {
      assert t[0] == gap[|x| - |t|];
      BlankIsSpace(t[0]);
    } else if |t| < |s| {
      assert x[|gap|] == s[0];
      BlankIsSpace(s[0]);
    }
  }

  lemma {:induction false} TokenOf(word: string, rest: string)
    requires NoBlank(word) && BlankFirst(rest)
    ensures Token(word + rest) == word
  {
    if word == "" {
      assert word + rest == rest;
    } else {
      assert (word + rest)[1..] == word[1..] + rest;
      TokenOf(word[1..], rest);
      assert [word[0]] + word[1..] == word;
    }
  }

  /** The second of the words that white space separates, whatever comes before the first and after the second. */
  lemma {:induction false} SecondWord(gap0: string, a: string, gap: string, b: string, rest: string)
    requires AllBlank(gap0) && AllBlank(gap) && gap != "" && a != "" && NoBlank(a) && NoBlank(b) && b != "" && BlankFirst(rest)
    ensures SecondField(gap0 + (a + (gap + (b + rest)))) == b
  {
    hide TrimLeft, Token;
    var behind := gap + (b + rest);
    SkipBlanks(gap0, a + behind);
    TokenOf(a, behind);
    assert (a + behind)[|a|..] == behind;
    SkipBlanks(gap, b + rest);
    TokenOf(b, rest);
  }

  /** Where there is no second word there is nothing. */
  lemma NoSecondWord(gap0: string, a: string, gap: string)
    requires AllBlank(gap0) && AllBlank(gap) && NoBlank(a)
    ensures SecondField(gap0 + (a + gap)) == ""
  {
    hide TrimLeft, Token;
    if a == "" {
      assert gap0 + (a + gap) == gap0 + gap + "";
      SkipBlanks(gap0 + gap, "");
      TokenOf("", "");
      assert ""[0..] == "" && "" + "" == "";
      SkipBlanks("", "");
    } else {
      SkipBlanks(gap0, a + gap);
      TokenOf(a, gap);
      assert (a + gap)[|a|..] == gap && gap + "" == gap;
      SkipBlanks(gap, "");
      TokenOf("", "");
    }
  }

  // ----- the method of a response -----

  /** A CSeq value: a number, white space, a method. */
  predicate CSeqOf(v: string, n: string, gap: string, m: string) {
    v == n + gap + m && n != "" && m != "" && gap != "" && NoBlank(n) && NoBlank(m) && AllBlank(gap)
  }

  /** Only header `k` of these is a CSeq. */
  predicate OnlyCSeq(hs: seq<Printed>, k: nat) {
    k < |hs| && forall j :: 0 <= j < |hs| ==> (NameOf(Lower(hs[j].name)) == CSeq <==> j == k)
  }

  lemma MethodOf(v: string, n: string, gap: string, m: string)
    requires CSeqOf(v, n, gap, m)
    ensures MethodNamed(v) == Upper(m)
  {
    hide SecondField, Upper;
    SecondWord("", n, gap, m, "");
    assert v == "" + (n + (gap + (m + "")));
  }

  /** A response whose only CSeq is a number and a method has that method, in upper case. */
  lemma {:induction false} ResponseMethod(
    version: string, code: string, reason: string, hs: seq<Printed>, body: seq<string>, k: nat, n: string, gap: string, m: string)
    requires "SIP/" <= version && Word(version)
    requires AllDigits(code) && code != "" && NatValue(code) < INT64_LIMIT
    requires reason != "" && !IsSpace(reason[|reason| - 1]) && OneLine(reason) && AllPrintable(hs) && AllOneLine(body)
    requires OnlyCSeq(hs, k) && CSeqOf(hs[k].value, n, gap, m)
    ensures
      var info := Parse(Terminated(MessageLines(StatusLineText(version, code, reason), hs, body)));
      info.kind == RESPONSE && info.status == NatValue(code) && info.method_ == Upper(m)
  {
    hide Parse, NatValue, MessageLines, Terminated, NameOf, Lower, Upper, SecondField, StatusLineText, LastValue;
    ResponseParses(version, code, reason, hs, body);
    MethodOf(hs[k].value, n, gap, m);
    OnlyMethod(Fields(hs), k, MethodNamed);
  }

  /** So the record of a 2xx response whose CSeq names INVITE is an answer, stored behind the digit of its class. */
  lemma {:induction false} AnswerRecord(
    version: string, code: string, reason: string, hs: seq<Printed>, body: seq<string>, k: nat, n: string, gap: string,
    m: string, meta: RecordMaker.Meta, base64: string -> string)
    requires "SIP/" <= version && Word(version) && |code| == 3 && AllDigits(code) && code[0] == '2'
    requires reason != "" && !IsSpace(reason[|reason| - 1]) && OneLine(reason) && AllPrintable(hs) && AllOneLine(body)
    requires OnlyCSeq(hs, k) && CSeqOf(hs[k].value, n, gap, m) && Upper(m) == "INVITE"
    ensures
      var r := RecordMaker.RecordOf(meta, Terminated(MessageLines(StatusLineText(version, code, reason), hs, body)), base64);
      CallState.Answers(r) && r.method_ == "2" + " " + Upper(m)
  {
    hide Parse, MessageLines, Terminated, NameOf, Lower, Upper, StatusLineText, CallState.Answers, NatValue, OnlyCSeq, CSeqOf;
    var msg := Terminated(MessageLines(StatusLineText(version, code, reason), hs, body));
    StatusValue(code);
    ResponseMethod(version, code, reason, hs, body, k, n, gap, m);
    RecordMaker.FlagsOfMessage(meta, msg, base64);
    ClassShown(meta, msg, base64, code[0], 2);
  }

  lemma StatusValue(code: string)
    requires |code| == 3 && AllDigits(code)
    ensures NatValue(code) / 100 == DigitValue(code[0]) && NatValue(code) < 1000
  {
    ThreeDigits(code);
  }

  /** A response with a status of three digits and a method is stored as its first digit, a space and the method. */
  lemma {:induction false} ClassShown(meta: RecordMaker.Meta, msg: string, base64: string -> string, digit: char, d: nat)
    requires Parse(msg).kind == RESPONSE && Parse(msg).method_ != "" && '1' <= digit <= '9' && d == DigitValue(digit)
    requires 100 * d <= Parse(msg).status < 100 * (d + 1)
    ensures RecordMaker.RecordOf(meta, msg, base64).method_ == [digit] + " " + Parse(msg).method_
  {
    hide Parse, Redact;
    assert Parse(msg).status / 100 == d;
    assert NatText(d) == [digit];
  }

  /** A request, and a response that names no method, is stored with its method as it is. */
  lemma NoClassShown(meta: RecordMaker.Meta, msg: string, base64: string -> string)
    requires Parse(msg).kind == REQUEST || Parse(msg).method_ == ""
    ensures RecordMaker.RecordOf(meta, msg, base64).method_ == Parse(msg).method_
  {
    hide Parse, Redact;
  }

  // ----- letter case -----

  /** Upper case leaves no small letter and lower case no capital, and neither changes what the text is in the other. */
  lemma CaseFolds(s: string)
    ensures forall i :: 0 <= i < |s| ==> !('a' <= Upper(s)[i] <= 'z') && !('A' <= Lower(s)[i] <= 'Z')
    ensures Lower(Upper(s)) == Lower(s) && Upper(Lower(s)) == Upper(s)
    ensures forall i :: 0 <= i < |s| && !('a' <= s[i] <= 'z') && !('A' <= s[i] <= 'Z') ==>
      Upper(s)[i] == s[i] && Lower(s)[i] == s[i]
  {
  }

  // ----- the names of headers -----

  /** The eight names that are read, long and compact, and their headers. */
  lemma KnownNames(name: string)
    ensures NameOf(name) == CallId <==> name == "call-id" || name == "i"
    ensures NameOf(name) == From <==> name == "from" || name == "f"
    ensures NameOf(name) == To <==> name == "to" || name == "t"
    ensures NameOf(name) == CSeq <==> name == "cseq"
    ensures NameOf(name) == Via <==> name == "via" || name == "v"
  {
    assert "call-id"[0] == 'c' && "i"[0] == 'i' && "from"[0] == 'f' && "f"[0] == 'f' && "to"[0] == 't' && "t"[0] == 't';
    assert |"call-id"| == 7 && |"cseq"| == 4 && "via"[0] == 'v' && "v"[0] == 'v';
  }

  /** The value of the last of the headers with one of two names, or nothing. */
  function LastOf(hs: seq<Printed>, long: string, short: string): string {
    if hs == [] then ""
    else
      var h := hs[|hs| - 1];
      if Lower(h.name) == long || Lower(h.name) == short then h.value else LastOf(hs[..|hs| - 1], long, short)
  }

  lemma FieldsSnoc(hs: seq<Printed>, h: Printed)
    ensures Fields(hs + [h]) == Fields(hs) + [SipParsed.FieldOf(h)]
  {
    hide NameOf, Lower;
    assert forall i :: 0 <= i <= |hs| ==> Fields(hs + [h])[i] == SipParsed.FieldOf((hs + [h])[i]);
  }

  lemma {:induction false} LastIsLast(hs: seq<Printed>, n: Name, long: string, short: string)
    requires forall name :: NameOf(name) == n <==> name == long || name == short
    ensures Or(LastValue(Fields(hs), n), "") == LastOf(hs, long, short)
  {
    hide NameOf, Lower, Fields;
    if hs == [] {
      assert Fields(hs) == [];
    } else {
      hide LastValue;
      var init, h := hs[..|hs| - 1], hs[|hs| - 1];
      LastIsLast(init, n, long, short);
      FieldsSnoc(init, h);
      assert hs == init + [h];
      LastSnoc(Fields(init), SipParsed.FieldOf(h), n);
    }
  }

  lemma {:induction false} LastSnoc(hs: seq<Header>, h: Header, n: Name)
    requires h.Field? && forall x :: x in hs ==> x.Field?
    ensures LastValue(hs + [h], n) == if h.name == n then Some(h.value) else LastValue(hs, n)
    decreases |hs|
  {
    if hs == [] {
      assert [h][1..] == [] && [] + [h] == [h];
    } else {
      assert (hs + [h])[1..] == hs[1..] + [h] && hs[0] in hs;
      LastSnoc(hs[1..], h, n);
    }
  }

  /** Call-ID, From and To of a request come from the last header of their long or compact name, in any case. */
  lemma {:induction false} HeadersRead(m: string, uri: string, version: string, hs: seq<Printed>, body: seq<string>)
    requires Word(m) && Word(uri) && Word(version) && !("SIP/" <= m) && AllPrintable(hs) && AllOneLine(body)
    ensures
      var info := Parse(Terminated(MessageLines(RequestLine(m, uri, version), hs, body)));
      && info.callId == LastOf(hs, "call-id", "i") && info.from == LastOf(hs, "from", "f")
      && info.to == LastOf(hs, "to", "t") && info.cseq == LastOf(hs, "cseq", "cseq")
  {
    hide Parse, MessageLines, Terminated, NameOf, Lower, Fields, LastValue, LastOf;
    RequestParses(m, uri, version, hs, body);
    forall name {
      KnownNames(name);
    }
    LastIsLast(hs, CallId, "call-id", "i");
    LastIsLast(hs, From, "from", "f");
    LastIsLast(hs, To, "to", "t");
    LastIsLast(hs, CSeq, "cseq", "cseq");
  }

  // ----- credentials -----

  /** What makes a line a credential, as a text of its own. */
  predicate NamesCredential(line: string) {
    StartsWith(Lower(Trim(line)), "authorization:") || StartsWith(Lower(Trim(line)), "proxy-authorization:")
  }

  predicate StartsWith(s: string, w: string) {
    |w| <= |s| && s[..|w|] == w
  }

  lemma CredentialNames(line: string)
    ensures IsCredential(line) <==> NamesCredential(line)
  {
    hide Trim, Lower;
    assert AUTHORIZATION + ":" == "authorization:" && PROXY_AUTHORIZATION + ":" == "proxy-authorization:";
  }

  /** No line of the redacted text names a credential, and every other line of the message is kept, in order. */
  lemma RedactsCredentials(msg: string, credential: string -> bool)
    requires forall l :: credential(l) <==> NamesCredential(l)
    ensures forall l :: l in Lines(Redact(msg)) ==> !NamesCredential(l)
    ensures Lines(Redact(msg)) == Kept(Lines(msg), credential) + [""]
  {
    hide NamesCredential, IsCredential, Redact, Lines, Kept;
    RedactedLines(msg);
    forall l ensures IsCredential(l) <==> credential(l) {
      CredentialNames(l);
    }
    forall l | l in Lines(Redact(msg)) ensures !NamesCredential(l) {
      CredentialNames(l);
    }
    SameKept(Lines(msg), IsCredential, credential);
  }

  lemma {:induction false} SameKept(lines: seq<string>, p: string -> bool, q: string -> bool)
    requires forall l :: p(l) <==> q(l)
    ensures Kept(lines, p) == Kept(lines, q)
  {
    if lines != [] {
      SameKept(lines[1..], p, q);
    }
  }
}
