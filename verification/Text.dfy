/** Decimal printing and scanning, splitting, trimming and ASCII case folding of strings. */
module Text {
  datatype Option<+T> = None | Some(value: T)

  // ----- decimal numbers -----

  predicate IsDigit(c: char) { '0' <= c <= '9' }

  predicate AllDigits(s: string) { forall i :: 0 <= i < |s| ==> IsDigit(s[i]) }

  function DigitValue(c: char): (d: nat)
    requires IsDigit(c)
    ensures d < 10
  {
    (c - '0') as int
  }

  function NatText(n: nat): (s: string)
    ensures |s| > 0 && AllDigits(s)
    ensures n > 0 ==> s[0] != '0'
  {
    if n < 10 then ['0' + n as char] else NatText(n / 10) + ['0' + (n % 10) as char]
  }

  function IntText(n: int): (s: string)
    ensures |s| > 0
  {
    if n < 0 then "-" + NatText(-n) else NatText(n)
  }

  function NatValue(s: string): nat
    requires AllDigits(s)
  {
    if s == "" then 0 else 10 * NatValue(s[..|s| - 1]) + DigitValue(s[|s| - 1])
  }

  lemma {:induction false} NatTextValue(n: nat)
    ensures NatValue(NatText(n)) == n
  {
    if n >= 10 {
      NatTextValue(n / 10);
      assert NatText(n)[..|NatText(n)| - 1] == NatText(n / 10);
    }
  }

  /** How many leading characters of `s` are digits. */
  function DigitRun(s: string): (k: nat)
    ensures k <= |s| && AllDigits(s[..k])
    ensures k < |s| ==> !IsDigit(s[k])
  {
    if s == "" || !IsDigit(s[0]) then 0 else
      var k := DigitRun(s[1..]);
      assert s[..k + 1] == [s[0]] + s[1..][..k];
      k + 1
  }

  lemma {:induction false} DigitRunOf(d: string, t: string)
    requires AllDigits(d) && (t == "" || !IsDigit(t[0]))
    ensures DigitRun(d + t) == |d|
  {
    if d == "" {
      assert d + t == t;
    } else {
      assert (d + t)[1..] == d[1..] + t;
      DigitRunOf(d[1..], t);
    }
  }

  function HexDigit(n: nat): char
    requires n < 16
  {
    if n < 10 then '0' + n as char else 'a' + (n - 10) as char
  }

  function HexValue(c: char): Option<nat> {
    if '0' <= c <= '9' then Some((c - '0') as int)
    else if 'a' <= c <= 'f' then Some((c - 'a') as int + 10)
    else if 'A' <= c <= 'F' then Some((c - 'A') as int + 10)
    else None
  }

  lemma SignShows(a: int)
    ensures IntText(a)[0] == '-' <==> a < 0
  {
    if a >= 0 {
      assert IsDigit(NatText(a)[0]);
    }
  }

  lemma IntTextInjective(a: int, b: int)
    requires IntText(a) == IntText(b)
    ensures a == b
  {
    hide NatValue, NatText;
    SignShows(a);
    SignShows(b);
    if a < 0 {
      NatTextValue(-a);
      NatTextValue(-b);
      assert IntText(a)[1..] == NatText(-a) && IntText(b)[1..] == NatText(-b);
    } else {
      NatTextValue(a);
      NatTextValue(b);
    }
  }

  // ----- the integers of a 64-bit machine -----

  const INT64_LIMIT := 0x8000_0000_0000_0000

  predicate Int64(n: int) {
    -INT64_LIMIT <= n < INT64_LIMIT
  }

  // ----- searching and splitting -----

  /** Position of the first `c` in `s`, or -1. */
  function IndexOf(s: string, c: char): (i: int)
    ensures -1 <= i < |s|
    ensures i >= 0 ==> s[i] == c && c !in s[..i]
    ensures i < 0 ==> c !in s
  {
    if s == "" then -1
    else if s[0] == c then 0
    else
      var i := IndexOf(s[1..], c);
      assert s == [s[0]] + s[1..];
      if i < 0 then -1 else
        assert s[..i + 1] == [s[0]] + s[1..][..i];
        i + 1
  }

  lemma IndexOfAfter(x: string, c: char, t: string)
    requires c !in x
    ensures IndexOf(x + [c] + t, c) == |x|
  {
    var s := x + [c] + t;
    var i := IndexOf(s, c);
    assert s[|x|] == c;
  }

  lemma NoneHasCons(x: string, rest: seq<string>, sep: char)
    requires sep !in x && forall i :: 0 <= i < |rest| ==> sep !in rest[i]
    ensures forall i :: 0 <= i < 1 + |rest| ==> sep !in ([x] + rest)[i]
  {
  }

  function Split(s: string, sep: char): (parts: seq<string>)
    ensures |parts| > 0
    ensures forall i :: 0 <= i < |parts| ==> sep !in parts[i]
    decreases |s|
  {
    var i := IndexOf(s, sep);
    if i < 0 then [s]
    else
      var rest := Split(s[i + 1..], sep);
      NoneHasCons(s[..i], rest, sep);
      [s[..i]] + rest
  }

  function Join(parts: seq<string>, sep: char): string
    requires |parts| > 0
  {
    if |parts| == 1 then parts[0] else parts[0] + [sep] + Join(parts[1..], sep)
  }

  lemma SplitCons(x: string, sep: char, t: string)
    requires sep !in x
    ensures Split(x + [sep] + t, sep) == [x] + Split(t, sep)
  {
    IndexOfAfter(x, sep, t);
    var s := x + [sep] + t;
    assert s[..|x|] == x && s[|x| + 1..] == t;
  }

  lemma {:induction false} SplitJoin(parts: seq<string>, sep: char)
    requires |parts| > 0 && forall i :: 0 <= i < |parts| ==> sep !in parts[i]
    ensures Split(Join(parts, sep), sep) == parts
  {
    if |parts| > 1 {
      SplitJoin(parts[1..], sep);
      SplitCons(parts[0], sep, Join(parts[1..], sep));
    }
  }

  lemma {:induction false} JoinSplit(s: string, sep: char)
    ensures Join(Split(s, sep), sep) == s
    decreases |s|
  {
    hide IndexOf;
    var i := IndexOf(s, sep);
    if i >= 0 {
      var x, t := s[..i], s[i + 1..];
      JoinSplit(t, sep);
      var parts := Split(s, sep);
      assert parts == [x] + Split(t, sep) && parts[1..] == Split(t, sep);
      assert Join(parts, sep) == x + [sep] + t;
      assert s == x + [sep] + t;
    }
  }

  lemma {:induction false} JoinAppend(a: seq<string>, b: seq<string>, sep: char)
    requires |a| > 0 && |b| > 0
    ensures Join(a + b, sep) == Join(a, sep) + [sep] + Join(b, sep)
  {
    if |a| == 1 {
      assert (a + b)[1..] == b;
    } else {
      assert (a + b)[1..] == a[1..] + b;
      JoinAppend(a[1..], b, sep);
    }
  }

  /** Position of the last `c` in `s`, or -1. */
  function LastIndexOf(s: string, c: char): (i: int)
    ensures -1 <= i < |s|
    ensures i >= 0 ==> s[i] == c && c !in s[i + 1..]
    ensures i < 0 ==> c !in s
  {
    if s == "" then -1
    else if s[|s| - 1] == c then |s| - 1
    else
      var i := LastIndexOf(s[..|s| - 1], c);
      assert s == s[..|s| - 1] + [s[|s| - 1]];
      if i < 0 then -1 else
        assert s[i + 1..] == s[..|s| - 1][i + 1..] + [s[|s| - 1]];
        i
  }

  lemma {:induction false} LastIndexOfBefore(x: string, c: char, t: string)
    requires c !in t
    ensures LastIndexOf(x + [c] + t, c) == |x|
  {
    if t == "" {
      assert x + [c] + t == x + [c];
    } else {
      var n := |t| - 1;
      assert (x + [c] + t)[..|x| + 1 + n] == x + [c] + t[..n];
      LastIndexOfBefore(x, c, t[..n]);
    }
  }

  // ----- trimming and case, over ASCII -----

  /** Tab, newline, vertical tab, form feed, carriage return, space. */
  predicate IsSpace(c: char) {
    c == ' ' || '\t' <= c <= '\r'
  }

  function TrimLeft(s: string): (t: string)
    ensures t == "" || !IsSpace(t[0])
    ensures |t| <= |s| && t == s[|s| - |t|..] && forall i :: 0 <= i < |s| - |t| ==> IsSpace(s[i])
  {
    if s != "" && IsSpace(s[0]) then
      var t := TrimLeft(s[1..]);
      assert forall i :: 1 <= i < |s| - |t| ==> s[i] == s[1..][i - 1];
      t
    else s
  }

  function TrimRight(s: string): (t: string)
    ensures t <= s && (t == "" || !IsSpace(t[|t| - 1]))
    ensures forall i :: |t| <= i < |s| ==> IsSpace(s[i])
  {
    if s != "" && IsSpace(s[|s| - 1]) then TrimRight(s[..|s| - 1]) else s
  }

  function Trim(s: string): string {
    TrimRight(TrimLeft(s))
  }

  function LowerChar(c: char): char {
    if 'A' <= c <= 'Z' then c - 'A' + 'a' else c
  }

  function UpperChar(c: char): char {
    if 'a' <= c <= 'z' then c - 'a' + 'A' else c
  }

  function Lower(s: string): (t: string)
    ensures |t| == |s| && forall i :: 0 <= i < |s| ==> t[i] == LowerChar(s[i])
  {
    seq(|s|, i requires 0 <= i < |s| => LowerChar(s[i]))
  }

  function Upper(s: string): (t: string)
    ensures |t| == |s| && forall i :: 0 <= i < |s| ==> t[i] == UpperChar(s[i])
  {
    seq(|s|, i requires 0 <= i < |s| => UpperChar(s[i]))
  }
}
