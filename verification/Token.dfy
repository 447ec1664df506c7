/**
 Session tokens (web/main.go). The keyed hash, base64 and the clock are parameters; characters stand for bytes.
 */
module Token {
  import opened Text

  datatype User = User(id: int, name: string, role: string)

  const SIG_LENGTH := 64
  const LIFETIME := 86400

  // ----- making -----

  function Payload(u: User, expires: int): string {
    IntText(u.id) + [':'] + (u.name + [':'] + (u.role + [':'] + IntText(expires)))
  }

  function Signed(payload: string, mac: string -> string): string {
    payload + [':'] + mac(payload)
  }

  function MakeToken(u: User, now: int, mac: string -> string, encode: string -> string): string {
    encode(Signed(Payload(u, now + LIFETIME), mac))
  }

  // ----- verifying -----

  /** Base-10 scanning with the error dropped: zero for what is no number, the nearest end for what has too many bits. */
  function ParseInt(s: string): int {
    var neg := s != "" && s[0] == '-';
    var body := if s != "" && (s[0] == '-' || s[0] == '+') then s[1..] else s;
    if body == "" || !AllDigits(body) then 0
    else
      var n: int := NatValue(body);
      if neg then (if -n < -INT64_LIMIT then -INT64_LIMIT else -n) else if n >= INT64_LIMIT then INT64_LIMIT - 1 else n
  }

  /** What a payload says, once its signature has been checked. */
  function ReadPayload(payload: string, now: int): Option<User> {
    var parts := Split(payload, ':');
    var n := |parts|;
    if n < 4 || ParseInt(parts[n - 1]) < now then None
    else Some(User(ParseInt(parts[0]), NameAmong(parts[1..n - 2]), parts[n - 2]))
  }

  function NameAmong(parts: seq<string>): string
    requires parts != []
  {
    Join(parts, ':')
  }

  function VerifyToken(token: string, now: int, mac: string -> string, decode: string -> Option<string>): Option<User> {
    match decode(token)
    case None => None
    case Some(s) =>
      if |s| < 66 then None
      else
        var sigStart := |s| - SIG_LENGTH;
        var payload := s[..sigStart - 1];
        if s[sigStart - 1] != ':' || s[sigStart..] != mac(payload) then None
        else ReadPayload(payload, now)
  }

  // ----- cutting a payload into parts -----

  lemma {:induction false} JoinedParts(id: string, names: seq<string>, roles: seq<string>, e: string, sep: char)
    requires names != [] && roles != []
    ensures Join([id] + names + roles + [e], sep) == id + [sep] + (Join(names, sep) + [sep] + (Join(roles, sep) + [sep] + e))
  {
    JoinAppend(roles, [e], sep);
    JoinAppend(names, roles + [e], sep);
    JoinAppend([id], names + (roles + [e]), sep);
    assert [id] + names + roles + [e] == [id] + (names + (roles + [e]));
  }

  predicate NoneHas(parts: seq<string>, sep: char) {
    forall i :: 0 <= i < |parts| ==> sep !in parts[i]
  }

  lemma {:induction false} FourParts(id: string, names: seq<string>, roles: seq<string>, e: string, sep: char, text: string)
    requires sep !in id && sep !in e && names != [] && roles != [] && NoneHas(names, sep) && NoneHas(roles, sep)
    requires text == id + [sep] + (Join(names, sep) + [sep] + (Join(roles, sep) + [sep] + e))
    ensures Split(text, sep) == [id] + names + roles + [e]
  {
    JoinedParts(id, names, roles, e, sep);
    SplitJoin([id] + names + roles + [e], sep);
  }

  lemma PayloadParts(u: User, expires: int)
    ensures Split(Payload(u, expires), ':') ==
      [IntText(u.id)] + Split(u.name, ':') + Split(u.role, ':') + [IntText(expires)]
  {
    JoinSplit(u.name, ':');
    JoinSplit(u.role, ':');
    FourParts(IntText(u.id), Split(u.name, ':'), Split(u.role, ':'), IntText(expires), ':', Payload(u, expires));
  }

  lemma WholeNumber(n: int)
    requires Int64(n)
    ensures ParseInt(IntText(n)) == n
  {
    hide NatText, NatValue;
    if n < 0 {
      NatTextValue(-n);
      assert ("-" + NatText(-n))[1..] == NatText(-n);
    } else {
      NatTextValue(n);
      assert IsDigit(NatText(n)[0]);
    }
  }

  /** What comes back of a user: the last colon-free piece of the role, and everything before it as the name. */
  function Restored(u: User): User {
    var r := Split(u.role, ':');
    User(u.id, NameAmong(Split(u.name, ':') + r[..|r| - 1]), r[|r| - 1])
  }

  lemma RestoredExactly(u: User)
    ensures Restored(u) == u <==> ':' !in u.role
  {
    if ':' !in u.role {
      JoinSplit(u.name, ':');
      assert Split(u.name, ':') + [] == Split(u.name, ':');
    }
  }

  /** A number of more than 64 bits is read as the nearest that has 64. */
  lemma BeyondLimits(n: int)
    ensures n > 9223372036854775807 ==> ParseInt(IntText(n)) == 9223372036854775807
    ensures n < -9223372036854775808 ==> ParseInt(IntText(n)) == -9223372036854775808
  {
    hide NatText, NatValue;
    if n < 0 {
      NatTextValue(-n);
      assert ("-" + NatText(-n))[1..] == NatText(-n);
    } else {
      NatTextValue(n);
      assert IsDigit(NatText(n)[0]);
    }
  }

  lemma PayloadReads(u: User, expires: int, now: int)
    requires Int64(u.id) && Int64(expires)
    ensures ReadPayload(Payload(u, expires), now) == if now <= expires then Some(Restored(u)) else None
  {
    var parts := Split(Payload(u, expires), ':');
    var name, role := Split(u.name, ':'), Split(u.role, ':');
    PayloadParts(u, expires);
    WholeNumber(u.id);
    WholeNumber(expires);
    Positions([IntText(u.id)], name, role, [IntText(expires)]);
    ReadParts(Payload(u, expires), parts, u.id, name + role[..|role| - 1], role[|role| - 1], expires, now);
  }

  lemma {:induction false} ReadParts(
    payload: string, parts: seq<string>, id: int, name: seq<string>, role: string, expires: int, now: int)
    requires Split(payload, ':') == parts && |parts| >= 4
    requires ParseInt(parts[0]) == id && ParseInt(parts[|parts| - 1]) == expires
    requires parts[1..|parts| - 2] == name && parts[|parts| - 2] == role
    ensures ReadPayload(payload, now) == if now <= expires then Some(User(id, NameAmong(name), role)) else None
  {
  }

  lemma Positions<T>(a: seq<T>, name: seq<T>, role: seq<T>, e: seq<T>)
    requires |a| == 1 && |e| == 1 && name != [] && role != []
    ensures
      var parts := a + name + role + e;
      var n := |parts|;
      && n >= 4 && parts[0] == a[0] && parts[n - 1] == e[0] && parts[n - 2] == role[|role| - 1]
      && parts[1..n - 2] == name + role[..|role| - 1]
  {
  }

  /**
   A fresh token verifies exactly up to its expiry, whatever the name, and gives back the same user exactly when
   the role has no colon.
   */
  lemma {:induction false} FreshToken(
    u: User, made: int, now: int, mac: string -> string, encode: string -> string, decode: string -> Option<string>)
    requires Int64(u.id) && Int64(made + 86400)
    requires |mac(Payload(u, made + 86400))| == 64
    requires
      var text := Signed(Payload(u, made + 86400), mac);
      decode(encode(text)) == Some(text)
    ensures
      var got := VerifyToken(MakeToken(u, made, mac, encode), now, mac, decode);
      && got == (if now <= made + 86400 then Some(Restored(u)) else None)
      && (got == Some(u) <==> now <= made + 86400 && ':' !in u.role)
  {
    hide ReadPayload, Restored, Split, IntText;
    var payload := Payload(u, made + LIFETIME);
    SignatureCuts(payload, mac(payload));
    PayloadReads(u, made + LIFETIME, now);
    RestoredExactly(u);
  }

  lemma SignatureCuts(payload: string, sig: string)
    requires |sig| == SIG_LENGTH
    ensures
      var s := payload + [':'] + sig;
      var sigStart := |s| - SIG_LENGTH;
      sigStart >= 1 && s[sigStart - 1] == ':' && s[..sigStart - 1] == payload && s[sigStart..] == sig
  {
  }

  /** Whatever is accepted was signed with the key, names an expiry not yet past, and says what the user is. */
  lemma AcceptedIsSigned(token: string, now: int, mac: string -> string, decode: string -> Option<string>)
    requires VerifyToken(token, now, mac, decode).Some?
    ensures exists payload ::
      && decode(token) == Some(Signed(payload, mac)) && |mac(payload)| == SIG_LENGTH
      && ReadPayload(payload, now) == VerifyToken(token, now, mac, decode)
      && now <= ParseInt(Split(payload, ':')[|Split(payload, ':')| - 1])
  {
    var s := decode(token).value;
    var payload := s[..|s| - SIG_LENGTH - 1];
    assert s == Signed(payload, mac);
    assert ReadPayload(payload, now) == VerifyToken(token, now, mac, decode);
  }
}
