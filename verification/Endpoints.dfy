/**
 Endpoint text: printed by the collector (core-go/hep.go), read by the browser's PCAP writer
 (web/static/app.js) and by its Python sibling (scripts/gen_pcap.py).
 */
module Endpoints {
  import opened Bytes
  import opened Text
  import opened HepCodec

  /** host:port, with the host in brackets when it contains a colon. */
  function EndpointText(ip: string, port: nat): string {
    if ':' in ip then "[" + ip + "]:" + NatText(port) else ip + ":" + NatText(port)
  }

  // ----- JavaScript -----

  /** Value of the hexadecimal digits at the front of `s`, continuing from `acc`. */
  function HexPrefix(s: string, acc: nat): nat {
    if s == "" || HexValue(s[0]).None? then acc else HexPrefix(s[1..], 16 * acc + HexValue(s[0]).value)
  }

  /** parseInt(s): leading white space, sign, then the longest run of digits; None is NaN. */
  function ParseInt(s: string): Option<int> {
    var t := TrimLeft(s);
    var neg := t != "" && t[0] == '-';
    var body := if t != "" && (t[0] == '-' || t[0] == '+') then t[1..] else t;
    var magnitude: Option<nat> :=
      if |body| >= 2 && body[0] == '0' && (body[1] == 'x' || body[1] == 'X') then
        if |body| > 2 && HexValue(body[2]).Some? then Some(HexPrefix(body[2..], 0)) else None
      else if DigitRun(body) == 0 then None
      else Some(NatValue(body[..DigitRun(body)]));
    match magnitude
    case None => None
    case Some(n) => var v: int := n; Some(if neg then -v else v)
  }

  /** parseInt(s) || fallback: NaN and zero both fall back. */
  function ParseIntOr(s: string, fallback: int): int {
    match ParseInt(s)
    case Some(n) => if n == 0 then fallback else n
    case None => fallback
  }

  function ParseEp(s: string): (string, int) {
    if s != "" && s[0] == '[' then
      var i := IndexOf(s, ']');
      if i >= 2 && i + 1 < |s| && s[i + 1] == ':' && DigitRun(s[i + 2..]) > 0
      then (s[1..i], NatValue(s[i + 2..][..DigitRun(s[i + 2..])]))
      else (s, 5060)
    else
      var i := LastIndexOf(s, ':');
      if i < 0 then (s, 5060) else (s[..i], ParseIntOr(s[i + 1..], 5060))
  }

  function IntsOf(parts: seq<string>): (r: seq<int>)
    ensures |r| == |parts| && forall i :: 0 <= i < |r| ==> r[i] == ParseIntOr(parts[i], 0)
  {
    seq(|parts|, i requires 0 <= i < |parts| => ParseIntOr(parts[i], 0))
  }

  function IpBytes(s: string): (r: seq<int>)
    ensures |r| <= 4
  {
    var r := IntsOf(Split(s, '.'));
    if |r| <= 4 then r else r[..4]
  }

  // ----- Python -----

  function ConcatAll(parts: seq<string>): string {
    if parts == [] then "" else parts[0] + ConcatAll(parts[1..])
  }

  lemma {:induction false} ConcatDigits(parts: seq<string>)
    requires forall i :: 0 <= i < |parts| ==> AllDigits(parts[i])
    ensures AllDigits(ConcatAll(parts))
  {
    if parts != [] {
      ConcatDigits(parts[1..]);
    }
  }

  predicate DigitParts(parts: seq<string>) {
    forall i :: 0 <= i < |parts| ==> parts[i] != "" && AllDigits(parts[i])
  }

  /** int(s): surrounding white space, a sign, and digits with single underscores between them; None raises. */
  function PyInt(s: string): Option<int> {
    var t := Trim(s);
    var neg := t != "" && t[0] == '-';
    var body := if t != "" && (t[0] == '-' || t[0] == '+') then t[1..] else t;
    var parts := Split(body, '_');
    if DigitParts(parts) then
      ConcatDigits(parts);
      var n: int := NatValue(ConcatAll(parts));
      Some(if neg then -n else n)
    else None
  }

  function PyParseEndpoint(s: string): (string, int) {
    var i := LastIndexOf(s, ':');
    if i < 0 then ("0.0.0.0", 5060)
    else (s[..i], match PyInt(s[i + 1..]) case Some(n) => n case None => 5060)
  }

  // ----- reading back what was printed -----

  lemma NatTextPlain(n: nat)
    ensures ':' !in NatText(n) && '.' !in NatText(n) && '_' !in NatText(n)
    ensures !IsSpace(NatText(n)[0]) && NatText(n)[0] != '-' && NatText(n)[0] != '+'
    ensures !IsSpace(NatText(n)[|NatText(n)| - 1])
    ensures |NatText(n)| >= 2 ==> NatText(n)[1] != 'x' && NatText(n)[1] != 'X'
  {
    assert forall i :: 0 <= i < |NatText(n)| ==> IsDigit(NatText(n)[i]);
  }

  lemma ParseIntOfNat(n: nat)
    ensures ParseInt(NatText(n)) == Some(n)
  {
    var s := NatText(n);
    NatTextPlain(n);
    NatTextValue(n);
    DigitRunOf(s, "");
    assert s + "" == s && s[..|s|] == s;
    assert TrimLeft(s) == s;
  }

  lemma PyIntOfNat(n: nat)
    ensures PyInt(NatText(n)) == Some(n)
  {
    var s := NatText(n);
    NatTextPlain(n);
    NatTextValue(n);
    assert TrimLeft(s) == s && TrimRight(s) == s;
    assert Split(s, '_') == [s];
    assert [s][1..] == [];
    assert ConcatAll([s]) == s + ConcatAll([]) == s;
  }

  lemma ParseEpBracketed(ip: string, port: nat)
    requires ']' !in ip && ip != ""
    ensures ParseEp("[" + ip + "]:" + NatText(port)) == (ip, port)
  {
    CutBracket(ip, NatText(port));
    DigitRunOf(NatText(port), "");
    assert NatText(port) + "" == NatText(port) && NatText(port)[..|NatText(port)|] == NatText(port);
    NatTextValue(port);
  }

  lemma CutBracket(ip: string, p: string)
    requires ']' !in ip
    ensures
      var s := "[" + ip + "]:" + p;
      var i := |ip| + 1;
      IndexOf(s, ']') == i && s[i + 1] == ':' && s[1..i] == ip && s[i + 2..] == p
  {
    var head := "[" + ip;
    assert "[" + ip + "]:" + p == head + [']'] + (":" + p);
    IndexOfAfter(head, ']', ":" + p);
  }

  lemma ParseEpPlain(ip: string, port: nat)
    requires ip == "" || ip[0] != '['
    ensures ParseEp(ip + ":" + NatText(port)) == (ip, if port == 0 then 5060 else port)
  {
    hide LastIndexOf, IndexOf, DigitRun, NatValue, NatText, ParseInt, TrimLeft;
    NatTextPlain(port);
    CutLast(ip, NatText(port));
    ParseIntOfNat(port);
    assert (ip + ":" + NatText(port))[0] != '[';
  }

  /** The browser recovers host and port of every endpoint the collector prints, port 0 of an unbracketed host aside. */
  lemma ParseEpOfEndpoint(ip: string, port: nat)
    requires ']' !in ip && (ip == "" || ip[0] != '[')
    ensures ParseEp(EndpointText(ip, port)) == (ip, if port == 0 && ':' !in ip then 5060 else port)
  {
    if ':' in ip {
      ParseEpBracketed(ip, port);
    } else {
      ParseEpPlain(ip, port);
    }
  }

  lemma {:induction false} JoinChars(parts: seq<string>, sep: char, bad: char)
    requires parts != [] && bad != sep && forall i :: 0 <= i < |parts| ==> bad !in parts[i]
    ensures bad !in Join(parts, sep) && (|parts| > 1 ==> sep in Join(parts, sep))
  {
    if |parts| > 1 {
      JoinChars(parts[1..], sep, bad);
    }
  }

  lemma HexTextPlain(n: nat)
    ensures forall i :: 0 <= i < |HexText(n)| ==> HexValue(HexText(n)[i]).Some?
  {
    if n >= 16 {
      HexTextPlain(n / 16);
    }
  }

  lemma Ipv6TextChars(d: seq<byte>)
    requires |d| >= 16
    ensures ':' in Ipv6Text(d) && ']' !in Ipv6Text(d) && '[' !in Ipv6Text(d) && '.' !in Ipv6Text(d)
  {
    var parts := seq(8, i requires 0 <= i < 8 => HexText(U16(d, 2 * i)));
    forall i | 0 <= i < 8 ensures ']' !in parts[i] && '[' !in parts[i] && '.' !in parts[i] {
      HexTextPlain(U16(d, 2 * i));
    }
    JoinChars(parts, ':', ']');
    JoinChars(parts, ':', '[');
    JoinChars(parts, ':', '.');
  }

  /** The decimal digits at the front of `s` as a number, zero when there are none. */
  function FrontNumber(s: string): nat {
    NatValue(s[..DigitRun(s)])
  }

  lemma {:induction false} RunStops(h: string, t: string)
    requires t == "" || !IsDigit(t[0])
    ensures DigitRun(h + t) == DigitRun(h)
  {
    if h == "" {
      assert h + t == t;
    } else {
      assert (h + t)[1..] == h[1..] + t;
      RunStops(h[1..], t);
    }
  }

  lemma ParseFront(h: string, t: string)
    requires h != "" && (forall i :: 0 <= i < |h| ==> HexValue(h[i]).Some?) && t != "" && t[0] == ':'
    ensures ParseIntOr(h + t, 0) == FrontNumber(h)
  {
    var s := h + t;
    assert !IsSpace(s[0]) && TrimLeft(s) == s;
    assert s[1] == if |h| > 1 then h[1] else ':';
    RunStops(h, t);
    assert s[..DigitRun(h)] == h[..DigitRun(h)];
  }

  lemma {:induction false} Ipv6TextFront(d: seq<byte>) returns (t: string)
    requires |d| >= 16
    ensures Ipv6Text(d) == HexText(U16(d, 0)) + t && t != "" && t[0] == ':'
  {
    var parts := seq(8, i requires 0 <= i < 8 => HexText(U16(d, 2 * i)));
    t := [':'] + Join(parts[1..], ':');
  }

  /** The number that hexadecimal digits stand for. */
  function HexNumber(s: string): nat
    requires forall i :: 0 <= i < |s| ==> HexValue(s[i]).Some?
  {
    if s == "" then 0 else 16 * HexNumber(s[..|s| - 1]) + HexValue(s[|s| - 1]).value
  }

  lemma {:induction false} HexTextValue(n: nat)
    ensures (forall i :: 0 <= i < |HexText(n)| ==> HexValue(HexText(n)[i]).Some?) && HexNumber(HexText(n)) == n
  {
    HexTextPlain(n);
    var s := HexText(n);
    if n < 16 {
      assert s[..0] == "";
    } else {
      HexTextValue(n / 16);
      assert s[..|s| - 1] == HexText(n / 16);
    }
  }

  /** The eight groups of a printed IPv6 address are its sixteen bytes, two by two. */
  lemma Ipv6Groups(d: seq<byte>, i: nat)
    requires |d| == 16 && i < 8
    ensures
      var parts := Split(Ipv6Text(d), ':');
      && |parts| == 8 && (forall k :: 0 <= k < |parts[i]| ==> HexValue(parts[i][k]).Some?)
      && HexNumber(parts[i]) == 256 * d[2 * i] as int + d[2 * i + 1] as int
  {
    hide HexText, Split, Join;
    var parts := seq(8, j requires 0 <= j < 8 => HexText(U16(d, 2 * j)));
    forall j | 0 <= j < 8 ensures ':' !in parts[j] {
      HexTextPlain(U16(d, 2 * j));
    }
    SplitJoin(parts, ':');
    HexTextValue(U16(d, 2 * i));
  }

  /** An IPv6 address has no dots: the browser keeps the decimal digits at the front of its first group, and nothing else. */
  lemma IpBytesOfIpv6(d: seq<byte>)
    requires |d| >= 16
    ensures IpBytes(Ipv6Text(d)) == [FrontNumber(HexText(U16(d, 0)))]
  {
    hide Ipv6Text, HexText, Split, ParseIntOr;
    Ipv6TextChars(d);
    SplitOne(Ipv6Text(d), '.');
    HexTextPlain(U16(d, 0));
    var t := Ipv6TextFront(d);
    ParseFront(HexText(U16(d, 0)), t);
  }

  /** Every endpoint printed for a decoded IPv6 address parses back to it and its port, zero included. */
  lemma Ipv6Endpoint(d: seq<byte>, port: nat)
    requires |d| >= 16
    ensures ParseEp(EndpointText(Ipv6Text(d), port)) == (Ipv6Text(d), port)
  {
    Ipv6TextChars(d);
    ParseEpOfEndpoint(Ipv6Text(d), port);
  }

  /** Every endpoint printed for a decoded IPv4 address parses back to it and its port, zero becoming 5060. */
  lemma Ipv4Endpoint(d: seq<byte>, port: nat)
    requires |d| >= 4
    ensures ParseEp(EndpointText(Ipv4Text(d), port)) == (Ipv4Text(d), if port == 0 then 5060 else port)
  {
    Ipv4TextChars(d);
    ParseEpOfEndpoint(Ipv4Text(d), port);
  }

  lemma SplitOne(e: string, sep: char)
    requires sep !in e
    ensures Split(e, sep) == [e]
  {
  }

  lemma {:induction false} SplitFour(a: string, b: string, c: string, e: string, sep: char)
    requires sep !in a && sep !in b && sep !in c && sep !in e
    ensures Split(a + [sep] + (b + [sep] + (c + [sep] + e)), sep) == [a, b, c, e]
  {
    hide Split, IndexOf;
    var t := c + [sep] + e;
    var u := b + [sep] + t;
    SplitOne(e, sep);
    SplitCons(c, sep, e);
    SplitCons(b, sep, t);
    SplitCons(a, sep, u);
    assert Split(t, sep) == [c, e];
    assert Split(u, sep) == [b, c, e];
  }

  lemma {:induction false} Associate(a: string, b: string, c: string, e: string, x: string)
    ensures a + x + b + x + c + x + e == a + x + (b + x + (c + x + e))
  {
  }

  lemma Ipv4TextParts(d: seq<byte>)
    requires |d| >= 4
    ensures Split(Ipv4Text(d), '.') == [NatText(d[0]), NatText(d[1]), NatText(d[2]), NatText(d[3])]
    ensures ':' !in Ipv4Text(d) && ']' !in Ipv4Text(d) && Ipv4Text(d)[0] != '['
  {
    NatTextPlain(d[0]);
    NatTextPlain(d[1]);
    NatTextPlain(d[2]);
    NatTextPlain(d[3]);
    SplitFour(NatText(d[0]), NatText(d[1]), NatText(d[2]), NatText(d[3]), '.');
    Associate(NatText(d[0]), NatText(d[1]), NatText(d[2]), NatText(d[3]), ".");
    Ipv4TextChars(d);
  }

  lemma Ipv4TextChars(d: seq<byte>)
    requires |d| >= 4
    ensures forall i :: 0 <= i < |Ipv4Text(d)| ==> IsDigit(Ipv4Text(d)[i]) || Ipv4Text(d)[i] == '.'
  {
    var a, b, c, e := NatText(d[0]), NatText(d[1]), NatText(d[2]), NatText(d[3]);
    var ab := a + "." + b;
    assert forall i :: 0 <= i < |ab| ==> IsDigit(ab[i]) || ab[i] == '.';
    var ce := "." + c + "." + e;
    assert forall i :: 0 <= i < |ce| ==> IsDigit(ce[i]) || ce[i] == '.';
    assert Ipv4Text(d) == ab + ce;
  }

  /** Dotted-quad text gives its four bytes back. */
  lemma IpBytesOfQuad(d: seq<byte>)
    requires |d| == 4
    ensures IpBytes(Ipv4Text(d)) == d
  {
    hide Ipv4Text, ParseInt, NatText, Split;
    Ipv4TextParts(d);
    ParseIntOfNat(d[0]);
    ParseIntOfNat(d[1]);
    ParseIntOfNat(d[2]);
    ParseIntOfNat(d[3]);
  }

  lemma PyEndpointOfQuad(d: seq<byte>, port: nat)
    requires |d| >= 4
    ensures PyParseEndpoint(EndpointText(Ipv4Text(d), port)) == (Ipv4Text(d), port)
  {
    Ipv4TextParts(d);
    PyEndpointPlain(Ipv4Text(d), port);
  }

  lemma PyEndpointPlain(ip: string, port: nat)
    ensures PyParseEndpoint(ip + ":" + NatText(port)) == (ip, port)
  {
    NatTextPlain(port);
    CutLast(ip, NatText(port));
    PyIntOfNat(port);
  }

  lemma CutLast(ip: string, p: string)
    requires ':' !in p
    ensures
      var s := ip + ":" + p;
      var i := LastIndexOf(s, ':');
      i >= 0 && s[..i] == ip && s[i + 1..] == p
  {
    assert ip + ":" + p == ip + [':'] + p;
    LastIndexOfBefore(ip, ':', p);
  }

  /** A word no number starts with. */
  predicate NoNumber(w: string) {
    w != "" && forall i :: 0 <= i < |w| ==> 'a' <= w[i] <= 'z'
  }

  /** Without a port, or with a word for one, both exporters take port 5060; without a colon Python has no address either. */
  lemma DefaultPorts(s: string, host: string, w: string)
    requires ':' !in s && (s == "" || s[0] != '[') && (host == "" || host[0] != '[') && NoNumber(w)
    ensures ParseEp(s) == (s, 5060) && PyParseEndpoint(s) == ("0.0.0.0", 5060)
    ensures ParseEp(host + ":" + w) == (host, 5060) && PyParseEndpoint(host + ":" + w) == (host, 5060)
  {
    hide ParseInt, PyInt, LastIndexOf, IndexOf, NoNumber;
    LettersOnly(w);
    CutLast(host, w);
    WordIsNoNumber(w);
    assert (host + ":" + w)[0] != '[';
  }

  lemma LettersOnly(w: string)
    requires NoNumber(w)
    ensures w != "" && ':' !in w && '_' !in w && !AllDigits(w) && !IsDigit(w[0]) && w[0] != '-' && w[0] != '+' && w[0] != '0'
    ensures TrimLeft(w) == w && Trim(w) == w && DigitRun(w) == 0
  {
    assert !IsDigit(w[0]);
  }

  lemma WordIsNoNumber(w: string)
    requires NoNumber(w)
    ensures ParseInt(w) == None && PyInt(w) == None
  {
    hide ParseInt, PyInt, TrimLeft, TrimRight, NoNumber, Split;
    WordParses(w);
    LettersOnly(w);
    SplitOne(w, '_');
    PyRefuses(w, [w], 0);
  }

  lemma PyRefuses(w: string, parts: seq<string>, i: nat)
    requires Trim(w) == w && w != "" && w[0] != '-' && w[0] != '+' && Split(w, '_') == parts
    requires i < |parts| && !AllDigits(parts[i])
    ensures PyInt(w) == None
  {
    hide Trim, Split, NatValue;
  }

  lemma WordParses(w: string)
    requires NoNumber(w)
    ensures ParseInt(w) == None
  {
    hide NatValue, HexPrefix, NoNumber;
    LettersOnly(w);
    var t := TrimLeft(w);
    assert t == w;
  }

  lemma {:induction false} PrefixIsNumber(h: string, acc: nat)
    requires forall i :: 0 <= i < |h| ==> HexValue(h[i]).Some?
    ensures HexPrefix(h, acc) == Times16(acc, |h|) + HexNumber(h)
    decreases |h|
  {
    if h != "" {
      var n := |h| - 1;
      PrefixSnoc(h[..n], h[n], acc);
      PrefixIsNumber(h[..n], acc);
      assert h == h[..n] + [h[n]];
    }
  }

  function Times16(a: nat, k: nat): nat {
    if k == 0 then a else 16 * Times16(a, k - 1)
  }

  lemma {:induction false} PrefixSnoc(h: string, c: char, acc: nat)
    requires (forall i :: 0 <= i < |h| ==> HexValue(h[i]).Some?) && HexValue(c).Some?
    ensures HexPrefix(h + [c], acc) == 16 * HexPrefix(h, acc) + HexValue(c).value
  {
    if h == "" {
      assert [c][1..] == "";
    } else {
      assert (h + [c])[1..] == h[1..] + [c];
      PrefixSnoc(h[1..], c, 16 * acc + HexValue(h[0]).value);
    }
  }

  lemma {:induction false} Times16Zero(k: nat)
    ensures Times16(0, k) == 0
  {
    if k > 0 {
      Times16Zero(k - 1);
    }
  }

  /** The browser reads a port in hexadecimal behind 0x as the number it stands for. */
  lemma HexPort(n: nat)
    ensures ParseInt("0x" + HexText(n)) == Some(n)
  {
    hide HexText, HexPrefix, HexNumber, ParseInt;
    var h := HexText(n);
    HexTextValue(n);
    PrefixIsNumber(h, 0);
    Times16Zero(|h|);
    HexRead("0x" + h, h);
  }

  lemma HexRead(s: string, h: string)
    requires s == "0x" + h && h != "" && HexValue(h[0]).Some?
    ensures ParseInt(s) == Some(HexPrefix(h, 0))
  {
    hide HexPrefix, HexValue, DigitRun, NatValue;
    assert s[0] == '0' && s[1] == 'x' && s[2] == h[0] && s[2..] == h;
    assert TrimLeft(s) == s;
  }

  /** A bracket without an end, or without a port behind it, leaves the text as it is, with port 5060. */
  lemma BrokenBracket(s: string)
    requires s != "" && s[0] == '[' && ']' !in s
    ensures ParseEp(s) == (s, 5060)
  {
  }

  /** Python cuts at the last colon and keeps the brackets. */
  lemma PyEndpointOfText(ip: string, port: nat)
    ensures PyParseEndpoint(EndpointText(ip, port)) == (if ':' in ip then "[" + ip + "]" else ip, port)
  {
    hide PyParseEndpoint, NatText;
    if ':' in ip {
      PyEndpointPlain("[" + ip + "]", port);
      assert "[" + ip + "]" + ":" + NatText(port) == "[" + ip + "]:" + NatText(port);
    } else {
      PyEndpointPlain(ip, port);
    }
  }

  /** The two exporters read a printed endpoint alike exactly when its host is no IPv6 address and its port not zero. */
  lemma ExportersAgree(ip: string, port: nat)
    requires ']' !in ip && (ip == "" || ip[0] != '[')
    ensures
      var s := EndpointText(ip, port);
      ParseEp(s) == PyParseEndpoint(s) <==> ':' !in ip && port != 0
  {
    ParseEpOfEndpoint(ip, port);
    PyEndpointOfText(ip, port);
  }

  /** So on every endpoint printed for a decoded IPv6 address they differ, whatever its port. */
  lemma ExportersSplitIpv6(d: seq<byte>, port: nat)
    requires |d| >= 16
    ensures
      var s := EndpointText(Ipv6Text(d), port);
      ParseEp(s) == (Ipv6Text(d), port) && PyParseEndpoint(s) == ("[" + Ipv6Text(d) + "]", port) && ParseEp(s) != PyParseEndpoint(s)
  {
    Ipv6TextChars(d);
    Ipv6Endpoint(d, port);
    PyEndpointOfText(Ipv6Text(d), port);
  }
}
