/** How start lines read. */
module SipStart {
  import opened Text
  import opened Sip
  import opened SipEcho

  lemma CutOnce(a: string, c: char, b: string)
    requires c !in a
    ensures CutAt(a + [c] + b, c) == (a, Some(b))
  {
    IndexOfAfter(a, c, b);
    assert (a + [c] + b)[..|a|] == a && (a + [c] + b)[|a| + 1..] == b;
  }

  lemma WholeRun(code: string)
    requires AllDigits(code)
    ensures code[..DigitRun(code)] == code
  {
    DigitRunOf(code, "");
    assert code + "" == code;
  }

  lemma ScanDigits(code: string, n: nat)
    requires AllDigits(code) && code != "" && NatValue(code) == n < INT64_LIMIT
    ensures ScanInt(code) == Some(n)
  {
    WholeRun(code);
  }

  /** A status is scanned behind white space, with or without a sign, up to the first character that is no digit. */
  lemma ScanReads(gap: string, sign: string, digits: string, rest: string)
    requires (forall i :: 0 <= i < |gap| ==> gap[i] == ' ' || gap[i] == '\t') && (sign == "" || sign == "+" || sign == "-")
    requires AllDigits(digits) && (rest == "" || !IsDigit(rest[0])) && sign + digits != ""
    ensures
      var n: int := NatValue(digits);
      var v := if sign == "-" then -n else n;
      ScanInt(gap + (sign + (digits + rest))) ==
        if digits != "" && -0x8000_0000_0000_0000 <= v < 0x8000_0000_0000_0000 then Some(v) else None
  {
    hide ScanInt, TrimLeft, NatValue;
    var t := sign + (digits + rest);
    assert t[0] == (sign + digits)[0];
    SkipGap(gap, t);
    ScanSigned(gap + t, sign, digits, rest);
  }

  lemma ScanSigned(s: string, sign: string, digits: string, rest: string)
    requires TrimLeft(s) == sign + (digits + rest) && (sign == "" || sign == "+" || sign == "-")
    requires AllDigits(digits) && (rest == "" || !IsDigit(rest[0])) && sign + digits != ""
    ensures
      var n: int := NatValue(digits);
      var v := if sign == "-" then -n else n;
      ScanInt(s) == if digits != "" && -0x8000_0000_0000_0000 <= v < 0x8000_0000_0000_0000 then Some(v) else None
  {
    hide NatValue, TrimLeft, DigitRun;
    var t := TrimLeft(s);
    DigitRunOf(digits, rest);
    assert (digits + rest)[..|digits|] == digits;
    if sign == "" {
      assert t == digits + rest && IsDigit(t[0]);
    } else {
      assert t[1..] == digits + rest;
    }
  }

  lemma {:induction false} SkipGap(gap: string, t: string)
    requires (forall i :: 0 <= i < |gap| ==> gap[i] == ' ' || gap[i] == '\t') && (t == "" || !IsSpace(t[0]))
    ensures TrimLeft(gap + t) == t
  {
    if gap == "" {
      assert gap + t == t;
    } else {
      assert (gap + t)[1..] == gap[1..] + t;
      SkipGap(gap[1..], t);
    }
  }

  lemma TrimEnd(x: string)
    requires x != "" && !IsSpace(x[0]) && !IsSpace(x[|x| - 1])
    ensures Trim(x + ['\r']) == x
  {
    DropReturn(x);
    assert (x + ['\r'])[0] == x[0];
  }

  /** A status line reads as a response with its code. */
  lemma StatusLine(version: string, code: string, reason: string)
    requires "SIP/" <= version && ' ' !in version
    requires AllDigits(code) && code != "" && NatValue(code) < INT64_LIMIT
    requires reason != "" && !IsSpace(reason[|reason| - 1])
    ensures StartLine(version + [' '] + (code + [' '] + reason) + ['\r']) ==
      BLANK.(kind := RESPONSE, status := NatValue(code))
  {
    hide NatValue, CutAt, ScanInt, Trim;
    var r := code + [' '] + reason;
    var x := version + [' '] + r;
    assert x[0] == version[0] == 'S' && x[|x| - 1] == reason[|reason| - 1];
    TrimEnd(x);
    assert "SIP/" <= x;
    CutOnce(version, ' ', r);
    CutOnce(code, ' ', reason);
    ScanDigits(code, NatValue(code));
  }

  lemma ThreeDigits(code: string)
    requires |code| == 3 && AllDigits(code)
    ensures NatValue(code) == 100 * DigitValue(code[0]) + 10 * DigitValue(code[1]) + DigitValue(code[2])
  {
    var two, one := code[..2], code[..1];
    assert two[..1] == one && one[..0] == "";
    assert NatValue(one) == 10 * NatValue("") + DigitValue(one[0]);
    assert NatValue(two) == 10 * NatValue(one) + DigitValue(two[1]);
  }

  /** A word of a request line. */
  predicate Word(s: string) {
    s != "" && forall i :: 0 <= i < |s| ==> !IsSpace(s[i])
  }

  function RequestLine(m: string, uri: string, version: string): string {
    m + [' '] + (uri + [' '] + version) + ['\r']
  }

  lemma RequestLineReads(m: string, uri: string, version: string)
    requires Word(m) && Word(uri) && Word(version) && !("SIP/" <= m)
    ensures StartLine(RequestLine(m, uri, version)) == BLANK.(kind := REQUEST, method_ := Upper(m), ruri := uri)
  {
    var rest := uri + [' '] + version;
    TrimEnd(m + [' '] + rest);
    CutOnce(m, ' ', rest);
    CutOnce(uri, ' ', version);
    NotResponse(m, rest);
  }

  lemma NotResponse(m: string, rest: string)
    requires Word(m) && !("SIP/" <= m)
    ensures !("SIP/" <= m + [' '] + rest)
  {
    var x := m + [' '] + rest;
    if |m| >= 4 {
      assert x[..4] == m[..4];
    } else {
      assert x[|m|] == ' ' && "SIP/"[|m|] != ' ';
    }
  }
}
