/**
 The flat JSON objects that carry capture records: the string escaper of core-go/main.go and a reader for
 section 7 of RFC 8259, limited to objects whose values are strings and integers.
 */
module Json {
  import opened Text

  datatype Value = Str(text: string) | Num(number: int)

  datatype Member = Member(key: string, value: Value)

  /** What a reader takes from the front of a text. */
  datatype Read<+T> = Fail | Got(value: T, rest: string)

  // ----- printing -----

  function Hex4(n: nat): (s: string)
    requires n < 0x1_0000
    ensures |s| == 4
  {
    [HexDigit(n / 16 / 16 / 16), HexDigit(n / 16 / 16 % 16), HexDigit(n / 16 % 16), HexDigit(n % 16)]
  }

  function EscapeChar(c: char): string {
    if c == '"' then ['\\', '"']
    else if c == '\\' then ['\\', '\\']
    else if c == '\n' then ['\\', 'n']
    else if c == '\r' then ['\\', 'r']
    else if c == '\t' then ['\\', 't']
    else if c < ' ' then ['\\', 'u'] + Hex4(c as int)
    else [c]
  }

  function Escape(s: string): string {
    if s == "" then "" else EscapeChar(s[0]) + Escape(s[1..])
  }

  lemma EscapeStep(b: string, s: string)
    requires s != ""
    ensures b + EscapeChar(s[0]) + Escape(s[1..]) == b + Escape(s)
  {
    hide EscapeChar;
    var head, tail := EscapeChar(s[0]), Escape(s[1..]);
    assert b + head + tail == b + (head + tail);
  }

  /** The escaper, character by character. */
  method Jesc(s: string) returns (b: string)
    ensures b == Escape(s)
  {
    b := "";
    assert s[0..] == s;
    for i := 0 to |s|
      invariant b + Escape(s[i..]) == Escape(s)
    {
      var c := s[i];
      EscapeStep(b, s[i..]);
      assert s[i..][1..] == s[i + 1..];
      match c {
        case '"' => b := b + ['\\', '"'];
        case '\\' => b := b + ['\\', '\\'];
        case '\n' => b := b + ['\\', 'n'];
        case '\r' => b := b + ['\\', 'r'];
        case '\t' => b := b + ['\\', 't'];
        case _ =>
          if c < ' ' {
            b := b + (['\\', 'u'] + Hex4(c as int));
          } else {
            b := b + [c];
          }
      }
    }
  }

  function Quoted(s: string): string {
    ['"'] + Escape(s) + ['"']
  }

  function ValueText(v: Value): string {
    match v
    case Str(s) => Quoted(s)
    case Num(n) => IntText(n)
  }

  function MemberText(m: Member): string {
    Quoted(m.key) + [':'] + ValueText(m.value)
  }

  function Members(ms: seq<Member>): string
    requires ms != []
  {
    if |ms| == 1 then MemberText(ms[0]) else MemberText(ms[0]) + [','] + Members(ms[1..])
  }

  function Print(ms: seq<Member>): string
    requires ms != []
  {
    ['{'] + Members(ms) + ['}']
  }

  // ----- reading strings -----

  function ReadHex4(s: string): (r: Option<nat>)
    ensures r.Some? ==> |s| >= 4 && r.value < 0x1_0000
  {
    if |s| < 4 then None
    else
      match (HexValue(s[0]), HexValue(s[1]), HexValue(s[2]), HexValue(s[3]))
      case (Some(a), Some(b), Some(c), Some(d)) => HexSum(a, b, c, d)
      case _ => None
  }

  function HexSum(a: nat, b: nat, c: nat, d: nat): (r: Option<nat>)
    ensures r.Some? ==> r.value < 0x1_0000
  {
    if a < 16 && b < 16 && c < 16 && d < 16 then Some(4096 * a + 256 * b + 16 * c + d) else None
  }

  const REPLACEMENT := 0xfffd as char

  predicate Surrogate(n: nat) {
    0xd800 <= n < 0xe000
  }

  /** Four hex digits, or two escapes that are a surrogate pair; a surrogate on its own reads as U+FFFD. */
  function ReadUnicode(s: string): (r: Read<char>)
    ensures r.Got? ==> |r.rest| < |s|
  {
    match ReadHex4(s)
    case None => Fail
    case Some(n) =>
      if !Surrogate(n) then Got(n as char, s[4..])
      else
        var low := if "\\u" <= s[4..] then ReadHex4(s[6..]) else None;
        if n < 0xdc00 && low.Some? && 0xdc00 <= low.value < 0xe000 then
          Got((0x1_0000 + (n - 0xd800) * 0x400 + (low.value - 0xdc00)) as char, s[10..])
        else Got(REPLACEMENT, s[4..])
  }

  /** What stands behind a backslash. */
  function ReadEscape(s: string): (r: Read<char>)
    ensures r.Got? ==> |r.rest| < |s|
  {
    if s == "" then Fail
    else
      match s[0]
      case '"' => Got('"', s[1..])
      case '\\' => Got('\\', s[1..])
      case '/' => Got('/', s[1..])
      case 'b' => Got(8 as char, s[1..])
      case 'f' => Got(12 as char, s[1..])
      case 'n' => Got('\n', s[1..])
      case 'r' => Got('\r', s[1..])
      case 't' => Got('\t', s[1..])
      case 'u' => ReadUnicode(s[1..])
      case _ => Fail
  }

  /** One character of a string, escaped or not. */
  function ReadChar(s: string): (r: Read<char>)
    ensures r.Got? ==> |r.rest| < |s|
  {
    if s == "" || s[0] == '"' || s[0] < ' ' then Fail
    else if s[0] == '\\' then ReadEscape(s[1..])
    else Got(s[0], s[1..])
  }

  /** The rest of a string behind its opening quote. */
  function ReadString(s: string): (r: Read<string>)
    ensures r.Got? ==> |r.rest| < |s|
    decreases |s|
  {
    if s != "" && s[0] == '"' then Got("", s[1..])
    else
      match ReadChar(s)
      case Fail => Fail
      case Got(c, more) => Prepend(c, ReadString(more))
  }

  function Prepend(c: char, r: Read<string>): Read<string> {
    match r
    case Fail => Fail
    case Got(t, rest) => Got([c] + t, rest)
  }

  // ----- reading objects -----

  predicate IsBlank(c: char) {
    c == ' ' || c == '\n' || c == '\r' || c == '\t'
  }

  function SkipBlanks(s: string): (t: string)
    ensures |t| <= |s|
  {
    if s != "" && IsBlank(s[0]) then SkipBlanks(s[1..]) else s
  }

  /** An integer as JSON writes it: no leading zero, no fraction, no exponent. */
  function ReadNumber(s: string): (r: Read<int>)
    ensures r.Got? ==> |r.rest| < |s|
  {
    var neg := s != "" && s[0] == '-';
    var body := if neg then s[1..] else s;
    var k := DigitRun(body);
    if k == 0 || (k > 1 && body[0] == '0') || (k < |body| && body[k] in ".eE") then Fail
    else
      var n: int := NatValue(body[..k]);
      Got(if neg then -n else n, body[k..])
  }

  function ReadValue(s: string): (r: Read<Value>)
    ensures r.Got? ==> |r.rest| < |s|
  {
    if s != "" && s[0] == '"' then
      match ReadString(s[1..])
      case Fail => Fail
      case Got(t, rest) => Got(Str(t), rest)
    else
      match ReadNumber(s)
      case Fail => Fail
      case Got(n, rest) => Got(Num(n), rest)
  }

  function ReadKey(s: string): (r: Read<string>)
    ensures r.Got? ==> |r.rest| < |s|
  {
    var t := SkipBlanks(s);
    if t != "" && t[0] == '"' then ReadString(t[1..]) else Fail
  }

  function ReadMember(s: string): (r: Read<Member>)
    ensures r.Got? ==> |r.rest| < |s|
  {
    match ReadKey(s)
    case Fail => Fail
    case Got(key, more) =>
      var t := SkipBlanks(more);
      if t == "" || t[0] != ':' then Fail
      else
        match ReadValue(SkipBlanks(t[1..]))
        case Fail => Fail
        case Got(v, rest) => Got(Member(key, v), rest)
  }

  /** Members separated by commas, and the closing brace. */
  function ReadMembers(s: string): Read<seq<Member>>
    decreases |s|
  {
    match ReadMember(s)
    case Fail => Fail
    case Got(m, more) =>
      var t := SkipBlanks(more);
      if t != "" && t[0] == '}' then Got([m], t[1..])
      else if t != "" && t[0] == ',' then PrependMember(m, ReadMembers(t[1..]))
      else Fail
  }

  function PrependMember(m: Member, r: Read<seq<Member>>): Read<seq<Member>> {
    match r
    case Fail => Fail
    case Got(ms, rest) => Got([m] + ms, rest)
  }

  function ParseObject(s: string): Option<seq<Member>> {
    var t := SkipBlanks(s);
    if t == "" || t[0] != '{' then None
    else
      var body := SkipBlanks(t[1..]);
      var r := if body != "" && body[0] == '}' then Got([], body[1..]) else ReadMembers(body);
      if r.Got? && SkipBlanks(r.rest) == "" then Some(r.value) else None
  }

  // ----- what is printed reads back -----

  lemma DigitBack(n: nat)
    requires n < 16
    ensures HexValue(HexDigit(n)) == Some(n)
  {
  }

  lemma Hex4Back(n: nat, t: string)
    requires n < 0x1_0000
    ensures ReadHex4(Hex4(n) + t) == Some(n)
  {
    hide HexValue, HexDigit;
    DigitBack(n / 16 / 16 / 16);
    DigitBack(n / 16 / 16 % 16);
    DigitBack(n / 16 % 16);
    DigitBack(n % 16);
  }

  /** Whatever the escaper writes for a character reads back as that character. */
  lemma CharBack(c: char, t: string)
    ensures ReadChar(EscapeChar(c) + t) == Got(c, t)
    ensures (EscapeChar(c) + t)[0] != '"'
  {
    var s := EscapeChar(c) + t;
    if c == '"' || c == '\\' || c == '\n' || c == '\r' || c == '\t' {
      assert s[1..][1..] == t;
    } else if c < ' ' {
      ControlBack(c, t);
    } else {
      assert s[1..] == t;
    }
  }

  lemma ControlBack(c: char, t: string)
    requires c < ' '
    ensures ReadChar(['\\', 'u'] + Hex4(c as int) + t) == Got(c, t)
  {
    hide Hex4, ReadHex4, HexDigit;
    var s := ['\\', 'u'] + Hex4(c as int) + t;
    var h := Hex4(c as int) + t;
    Hex4Back(c as int, t);
    assert s[1..][1..] == h && h[4..] == t;
  }

  lemma EscapeCons(s: string, t: string)
    requires s != ""
    ensures Escape(s) + t == EscapeChar(s[0]) + (Escape(s[1..]) + t)
  {
  }

  lemma {:induction false} StringBack(s: string, t: string, quoted: string)
    requires quoted == ['"'] + t
    ensures ReadString(Escape(s) + quoted) == Got(s, t)
  {
    hide EscapeChar, ReadChar;
    if s == "" {
      assert Escape(s) + quoted == quoted && quoted[1..] == t;
    } else {
      var more := Escape(s[1..]) + quoted;
      StringBack(s[1..], t, quoted);
      CharBack(s[0], more);
      EscapeCons(s, quoted);
      assert [s[0]] + s[1..] == s;
    }
  }

  /** What may follow a value in an object. */
  predicate Follows(t: string) {
    t != "" && (t[0] == ',' || t[0] == '}')
  }

  lemma NatBack(n: nat, t: string)
    requires Follows(t)
    ensures ReadNumber(NatText(n) + t) == Got(n, t)
  {
    var d := NatText(n);
    DigitRunOf(d, t);
    NatTextValue(n);
    assert (d + t)[..|d|] == d && (d + t)[|d|..] == t;
  }

  lemma NumberBack(n: int, t: string)
    requires Follows(t)
    ensures ReadNumber(IntText(n) + t) == Got(n, t)
  {
    if n < 0 {
      MinusBack(-n, t);
    } else {
      NatBack(n, t);
    }
  }

  lemma MinusText(d: string, t: string)
    requires d != "" && IsDigit(d[0])
    ensures
      var s := "-" + d + t;
      s[0] == '-' && s[1..] == d + t && s[1] != '-'
  {
  }

  lemma MinusBack(n: nat, t: string)
    requires Follows(t) && n > 0
    ensures ReadNumber("-" + NatText(n) + t) == Got(-(n as int), t)
  {
    NatBack(n, t);
    MinusText(NatText(n), t);
  }

  lemma QuotedText(q: string, e: string, t: string)
    requires q == ['"'] + e + ['"']
    ensures q + t != "" && (q + t)[0] == '"' && (q + t)[1..] == e + (['"'] + t)
  {
  }

  lemma QuotedBack(s: string, t: string)
    ensures Quoted(s) + t != "" && (Quoted(s) + t)[0] == '"'
    ensures ReadString((Quoted(s) + t)[1..]) == Got(s, t)
  {
    StringBack(s, t, ['"'] + t);
    QuotedText(Quoted(s), Escape(s), t);
  }

  lemma ValueBack(v: Value, t: string)
    requires Follows(t)
    ensures ReadValue(SkipBlanks(ValueText(v) + t)) == Got(v, t)
  {
    match v {
      case Str(s) => QuotedBack(s, t);
      case Num(n) =>
        NumberBack(n, t);
    }
  }

  lemma MemberBack(m: Member, t: string)
    requires Follows(t)
    ensures ReadMember(MemberText(m) + t) == Got(m, t)
  {
    var v := ValueText(m.value) + t;
    QuotedBack(m.key, [':'] + v);
    AroundColon(Quoted(m.key), ValueText(m.value), t);
    ValueBack(m.value, t);
    KeyThenValue(MemberText(m) + t, m.key, v, m.value, t);
  }

  lemma AroundColon(a: string, b: string, t: string)
    ensures a + [':'] + b + t == a + ([':'] + (b + t))
  {
  }

  lemma {:induction false} KeyThenValue(s: string, key: string, v: string, value: Value, t: string)
    requires s != "" && s[0] == '"' && ReadString(s[1..]) == Got(key, [':'] + v)
    requires ReadValue(SkipBlanks(v)) == Got(value, t)
    ensures ReadMember(s) == Got(Member(key, value), t)
  {
    assert ([':'] + v)[1..] == v;
  }

  lemma LastMember(s: string, m: Member, t: string)
    requires ReadMember(s) == Got(m, ['}'] + t)
    ensures ReadMembers(s) == Got([m], t)
  {
    assert (['}'] + t)[1..] == t;
  }

  lemma NextMember(s: string, m: Member, more: string)
    requires ReadMember(s) == Got(m, [','] + more)
    ensures ReadMembers(s) == PrependMember(m, ReadMembers(more))
  {
    hide ReadMember;
    assert ([','] + more)[1..] == more;
  }

  lemma MembersCons(ms: seq<Member>, u: string)
    requires |ms| > 1
    ensures Members(ms) + u == MemberText(ms[0]) + ([','] + (Members(ms[1..]) + u))
  {
    Reassociate(MemberText(ms[0]), Members(ms[1..]), u);
  }

  lemma Reassociate(a: string, b: string, u: string)
    ensures a + [','] + b + u == a + ([','] + (b + u))
  {
  }

  lemma {:induction false} MembersBack(ms: seq<Member>, t: string, u: string)
    requires ms != [] && u == ['}'] + t
    ensures ReadMembers(Members(ms) + u) == Got(ms, t)
  {
    if |ms| == 1 {
      MemberBack(ms[0], u);
      LastMember(Members(ms) + u, ms[0], t);
      assert [ms[0]] == ms;
    } else {
      var more := Members(ms[1..]) + u;
      MembersBack(ms[1..], t, u);
      MemberBack(ms[0], [','] + more);
      MembersCons(ms, u);
      NextMember(Members(ms) + u, ms[0], more);
      assert [ms[0]] + ms[1..] == ms;
    }
  }

  /** The reader undoes the printer: for every list of members, in order, with every key and value intact. */
  lemma PrintedParses(ms: seq<Member>)
    requires ms != []
    ensures ParseObject(Print(ms)) == Some(ms)
  {
    hide Members, ReadMembers, MemberText;
    MembersBack(ms, "", ['}']);
    MembersStart(ms);
    assert Print(ms)[1..] == Members(ms) + ['}'];
  }

  lemma MembersStart(ms: seq<Member>)
    requires ms != []
    ensures Members(ms) != "" && Members(ms)[0] == '"'
  {
    assert MemberText(ms[0])[0] == '"';
  }

  // ----- building an object member by member -----

  lemma {:induction false} MembersSnoc(ms: seq<Member>, m: Member)
    requires ms != []
    ensures Members(ms + [m]) == Members(ms) + [','] + MemberText(m)
  {
    if |ms| == 1 {
      assert (ms + [m])[1..] == [m];
    } else {
      MembersSnoc(ms[1..], m);
      assert (ms + [m])[1..] == ms[1..] + [m];
      Regroup(MemberText(ms[0]), Members(ms[1..]), MemberText(m));
    }
  }

  lemma Regroup(a: string, b: string, c: string)
    ensures a + [','] + (b + [','] + c) == a + [','] + b + [','] + c
  {
  }
}
