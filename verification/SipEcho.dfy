/** What the parser reads in an echo reply, and exactly when that is what it read in the request. */
module SipEcho {
  import opened Text
  import opened Sip
  import opened SipLaws

  // ----- trimming around a header line -----

  lemma {:induction false} TrimRightKeeps(x: string, c: char, r: string)
    requires !IsSpace(c)
    ensures TrimRight(x + [c] + r) == x + [c] + TrimRight(r)
  {
    var s := x + [c] + r;
    if r == "" {
      assert s == x + [c] && x + [c] + "" == x + [c];
    } else if IsSpace(r[|r| - 1]) {
      assert s[..|s| - 1] == x + [c] + r[..|r| - 1];
      TrimRightKeeps(x, c, r[..|r| - 1]);
    }
  }

  /** No spaces, no colon. */
  predicate PlainName(name: string) {
    name != "" && forall i :: 0 <= i < |name| ==> !IsSpace(name[i]) && name[i] != ':'
  }

  lemma TrimHeader(name: string, r: string)
    requires PlainName(name)
    ensures Trim(name + [':'] + r) == name + [':'] + TrimRight(r)
  {
    TrimRightKeeps(name, ':', r);
    assert (name + [':'] + r)[0] == name[0];
  }

  lemma CutHeader(name: string, v: string)
    requires PlainName(name)
    ensures
      var t := name + [':'] + v;
      IndexOf(t, ':') == |name| && t[..|name|] == name && t[|name| + 1..] == v
  {
    IndexOfAfter(name, ':', v);
  }

  lemma HeaderLine(name: string, r: string)
    requires PlainName(name)
    ensures HeaderOf(name + [':'] + r) == Field(NameOf(Lower(name)), Trim(TrimRight(r)))
  {
    TrimHeader(name, r);
    CutHeader(name, TrimRight(r));
    TrimNoSpaces(name);
    FieldOf(name + [':'] + r, name + [':'] + TrimRight(r), |name|, name, TrimRight(r));
  }

  lemma {:induction false} FieldOf(line: string, t: string, i: nat, name: string, v: string)
    requires Trim(line) == t && IndexOf(t, ':') == i && i >= 1
    requires Trim(t[..i]) == name && t[i + 1..] == v
    ensures HeaderOf(line) == Field(NameOf(Lower(name)), Trim(v))
  {
    hide Trim, IndexOf, NameOf, Lower;
  }

  /** No space at either end. */
  predicate Trimmed(v: string) {
    v == "" || (!IsSpace(v[0]) && !IsSpace(v[|v| - 1]))
  }

  /** A printed value comes back without the space before it and the carriage return behind it. */
  lemma PaddedValue(v: string)
    requires Trimmed(v)
    ensures Trim(TrimRight([' '] + v + ['\r'])) == v
  {
    if v == "" {
      OnlySpaces();
    } else {
      DropReturn([' '] + v);
      TrimSpaced(v);
    }
  }

  lemma OnlySpaces()
    ensures Trim(TrimRight([' '] + "" + ['\r'])) == ""
  {
    var s: string := [' ', '\r'];
    assert [' '] + "" + ['\r'] == s;
    assert s[..1] == [' '] && [' '][..0] == "";
    assert TrimRight([' ']) == TrimRight("") == "";
  }

  lemma DropReturn(x: string)
    requires x != "" && !IsSpace(x[|x| - 1])
    ensures TrimRight(x + ['\r']) == x
  {
    assert (x + ['\r'])[..|x|] == x;
  }

  lemma TrimSpaced(v: string)
    requires v != "" && Trimmed(v)
    ensures Trim([' '] + v) == v
  {
    assert ([' '] + v)[1..] == v;
  }

  /** What reading a printed header must give. */
  ghost predicate ReadsHeaders(read: string -> Header) {
    && read("") == End && read("\r") == End
    && forall name, v :: PlainName(name) ==> ReadsBack(read(HeaderText(name, v)), name, v)
  }

  predicate ReadsBack(h: Header, name: string, v: string) {
    h.Field? && h.name == NameOf(Lower(name)) && (Trimmed(v) ==> h.value == v)
  }

  lemma HeaderOfReads()
    ensures ReadsHeaders(HeaderOf)
  {
    forall name, v | PlainName(name) ensures ReadsBack(HeaderOf(HeaderText(name, v)), name, v) {
      HeaderLine(name, [' '] + v + ['\r']);
      if Trimmed(v) {
        PaddedValue(v);
      }
    }
    EmptyLineEnds();
    ReturnLineEnds();
  }

  lemma ReturnLineEnds()
    ensures HeaderOf("\r") == End
  {
    var s: string := ['\r'];
    assert s[1..] == "" && TrimLeft(s) == TrimLeft("") == "";
  }

  // ----- the values copied are trimmed and on one line -----

  predicate CleanValue(v: string) {
    Trimmed(v) && OneLine(v)
  }

  predicate AllOk(e: EchoHeaders, ok: string -> bool) {
    ok(e.via) && ok(e.from) && ok(e.to) && ok(e.callId) && ok(e.cseq)
  }

  predicate HeaderOk(h: Header, ok: string -> bool) {
    h.Field? ==> ok(h.value)
  }

  lemma TrimTrims(s: string)
    ensures Trimmed(Trim(s))
  {
    var t := TrimLeft(s);
    var u := TrimRight(t);
    if u != "" {
      assert u[0] == t[0];
    }
  }

  lemma TrimOneLine(s: string)
    requires OneLine(s)
    ensures OneLine(Trim(s))
  {
    var t := TrimLeft(s);
    assert OneLine(t);
  }

  lemma LineReadsClean(line: string)
    requires OneLine(line)
    ensures HeaderOk(HeaderOf(line), CleanValue)
  {
    var t := Trim(line);
    TrimOneLine(line);
    var i := IndexOf(t, ':');
    if i >= 0 {
      assert OneLine(t[i + 1..]);
      TrimOneLine(t[i + 1..]);
      TrimTrims(t[i + 1..]);
    }
  }

  lemma {:induction false} LinesReadOk(lines: seq<string>, read: string -> Header, ok: string -> bool)
    requires forall l :: l in lines ==> HeaderOk(read(l), ok)
    ensures forall h :: h in ReadLines(lines, read) ==> HeaderOk(h, ok)
  {
    if lines != [] {
      assert HeaderOk(read(lines[0]), ok);
      LinesReadOk(lines[1..], read, ok);
    }
  }

  lemma {:induction false} EchoStaysOk(e: EchoHeaders, hs: seq<Header>, ok: string -> bool)
    requires AllOk(e, ok) && forall h :: h in hs ==> HeaderOk(h, ok)
    ensures AllOk(ReadEcho(e, hs), ok)
    decreases |hs|
  {
    if hs != [] && !hs[0].End? {
      assert HeaderOk(hs[0], ok);
      EchoStaysOk(if hs[0].Skip? then e else SetEcho(e, hs[0].name, hs[0].value), hs[1..], ok);
    }
  }

  /** The headers copied from a message. */
  function Copied(msg: string): EchoHeaders {
    ReadEcho(NO_HEADERS, HeadersOf(Lines(msg)))
  }

  lemma CopiedAreClean(msg: string)
    ensures AllOk(Copied(msg), CleanValue)
  {
    hide HeaderOf, ReadLines, ReadEcho, Trim;
    forall l | l in Lines(msg) ensures HeaderOk(HeaderOf(l), CleanValue) {
      assert OneLine(l);
      LineReadsClean(l);
    }
    LinesReadOk(Lines(msg), HeaderOf, CleanValue);
    EchoStaysOk(NO_HEADERS, HeadersOf(Lines(msg)), CleanValue);
  }

  // ----- printed headers -----

  lemma PrintedField(name: string, v: string, n: Name, read: string -> Header)
    requires ReadsHeaders(read) && PlainName(name) && NameOf(Lower(name)) == n && CleanValue(v)
    ensures read(HeaderText(name, v)) == Field(n, v)
  {
    assert ReadsBack(read(HeaderText(name, v)), name, v);
  }

  predicate AllOneLine(ls: seq<string>) {
    forall l :: l in ls ==> OneLine(l)
  }
}
