/** What redaction keeps: exactly when the parsed fields survive it, which lines remain, and what a second pass does. */
module SipLaws {
  import opened Text
  import opened Sip

  // ----- lines -----

  predicate OneLine(s: string) {
    '\n' !in s
  }

  lemma {:induction false} LinesOfTerminated(ls: seq<string>)
    requires forall l :: l in ls ==> OneLine(l)
    ensures Lines(Terminated(ls)) == ls + [""]
  {
    if ls != [] {
      LinesOfTerminated(ls[1..]);
      assert OneLine(ls[0]);
      SplitCons(ls[0], '\n', Terminated(ls[1..]));
    }
  }

  lemma {:induction false} KeptLines(lines: seq<string>, drop: string -> bool)
    ensures forall l :: l in Kept(lines, drop) <==> l in lines && !drop(l)
  {
    if lines != [] {
      KeptCons(lines, drop);
      KeptLines(lines[1..], drop);
      assert forall l :: l in lines <==> l == lines[0] || l in lines[1..];
    }
  }

  lemma EmptyIsNoCredential()
    ensures !IsCredential("")
  {
    assert Lower(Trim("")) == "";
  }

  /** The redacted text has the lines that are not credentials, in order, and one empty line at its end. */
  lemma RedactedLines(msg: string)
    ensures Lines(Redact(msg)) == Kept(Lines(msg), IsCredential) + [""]
    ensures forall l :: l in Lines(Redact(msg)) ==> !IsCredential(l)
  {
    EmptyIsNoCredential();
    KeptThenTerminated(Lines(msg), IsCredential);
  }

  lemma KeptThenTerminated(lines: seq<string>, drop: string -> bool)
    requires (forall l :: l in lines ==> OneLine(l)) && !drop("")
    ensures Lines(Terminated(Kept(lines, drop))) == Kept(lines, drop) + [""]
    ensures forall l :: l in Kept(lines, drop) + [""] ==> !drop(l)
  {
    KeptLines(lines, drop);
    LinesOfTerminated(Kept(lines, drop));
  }

  lemma {:induction false} KeptAgain(lines: seq<string>, drop: string -> bool)
    requires forall l :: l in lines ==> !drop(l)
    ensures Kept(lines, drop) == lines
  {
    if lines != [] {
      KeptCons(lines, drop);
      KeptAgain(lines[1..], drop);
    }
  }

  lemma {:induction false} TerminatedSnoc(lines: seq<string>, x: string)
    ensures Terminated(lines + [x]) == Terminated(lines) + x + ['\n']
  {
    if lines == [] {
      TerminatedCons(x, []);
      assert [] + [x] == [x] + [];
    } else {
      TerminatedSnoc(lines[1..], x);
      TerminatedCons(lines[0], lines[1..] + [x]);
      assert lines + [x] == [lines[0]] + (lines[1..] + [x]);
    }
  }

  /** A second pass removes nothing more but still appends a newline: redaction is not idempotent. */
  lemma RedactTwice(msg: string)
    ensures Redact(Redact(msg)) == Redact(msg) + "\n"
  {
    RedactedLines(msg);
    AppendsLine(Lines(msg), IsCredential);
  }

  lemma AppendsLine(lines: seq<string>, drop: string -> bool)
    requires forall l :: l in Kept(lines, drop) + [""] ==> !drop(l)
    ensures Terminated(Kept(Kept(lines, drop) + [""], drop)) == Terminated(Kept(lines, drop)) + "\n"
  {
    KeptAgain(Kept(lines, drop) + [""], drop);
    TerminatedSnoc(Kept(lines, drop), "");
  }

  // ----- credential lines are no parsed header -----

  /** Lower-case letters and hyphens, none of them the first letter of "SIP". */
  predicate HeaderWord(w: string) {
    w != "" && w[0] != 's' && forall i :: 0 <= i < |w| ==> 'a' <= w[i] <= 'z' || w[i] == '-'
  }

  lemma CredentialWords()
    ensures HeaderWord(AUTHORIZATION) && HeaderWord(PROXY_AUTHORIZATION)
    ensures NameOf(AUTHORIZATION) == NameOf(PROXY_AUTHORIZATION) == Other
  {
  }

  lemma TrimNoSpaces(s: string)
    requires forall i :: 0 <= i < |s| ==> !IsSpace(s[i])
    ensures Trim(s) == s
  {
  }

  /** A text that starts, in lower case, with `w` and a colon has neither colon nor space before that colon. */
  lemma WordInFront(t: string, w: string)
    requires HeaderWord(w) && w + ":" <= Lower(t)
    ensures |w| < |t| && t[|w|] == ':' && Lower(t[..|w|]) == w
    ensures forall i :: 0 <= i < |w| ==> t[i] != ':' && !IsSpace(t[i]) && LowerChar(t[i]) == w[i]
  {
    var n := |w|;
    assert Lower(t)[n] == (w + ":")[n];
    forall i | 0 <= i < n ensures LowerChar(t[i]) == w[i] {
      assert Lower(t)[i] == (w + ":")[i];
    }
    assert Lower(t[..n]) == w;
  }

  lemma ColonAt(t: string, n: nat)
    requires n < |t| && t[n] == ':' && forall i :: 0 <= i < n ==> t[i] != ':'
    ensures IndexOf(t, ':') == n
  {
  }

  lemma CredentialIsNoField(line: string)
    requires IsCredential(line)
    ensures HeaderOf(line).Field? && HeaderOf(line).name == Other
  {
    hide Lower, IndexOf, Trim, NameOf;
    var t := Trim(line);
    var w := if AUTHORIZATION + ":" <= Lower(t) then AUTHORIZATION else PROXY_AUTHORIZATION;
    CredentialWords();
    WordInFront(t, w);
    ColonAt(t, |w|);
    TrimNoSpaces(t[..|w|]);
  }

  /** `ks` is `hs` without some headers of no interest, and with an end behind it. */
  predicate Thinned(hs: seq<Header>, ks: seq<Header>)
    decreases |hs|
  {
    if hs == [] then ks == [End]
    else
      || (ks != [] && ks[0] == hs[0] && Thinned(hs[1..], ks[1..]))
      || (hs[0].Field? && hs[0].name == Other && Thinned(hs[1..], ks))
  }

  lemma {:induction false} ThinnedReads(info: SipInfo, hs: seq<Header>, ks: seq<Header>)
    requires Thinned(hs, ks)
    ensures ReadHeaders(info, hs) == ReadHeaders(info, ks)
    decreases |hs|
  {
    if hs != [] {
      var next := if hs[0].Field? then SetField(info, hs[0].name, hs[0].value) else info;
      if ks != [] && ks[0] == hs[0] && Thinned(hs[1..], ks[1..]) {
        ThinnedReads(next, hs[1..], ks[1..]);
      } else {
        ThinnedReads(next, hs[1..], ks);
      }
    }
  }

  lemma ReadLinesCons(x: string, lines: seq<string>, read: string -> Header)
    ensures ReadLines([x] + lines, read) == [read(x)] + ReadLines(lines, read)
  {
    assert ([x] + lines)[1..] == lines;
  }

  lemma {:induction false} ReadLinesAppend(a: seq<string>, b: seq<string>, read: string -> Header)
    ensures ReadLines(a + b, read) == ReadLines(a, read) + ReadLines(b, read)
  {
    if a == [] {
      assert a + b == b;
    } else {
      assert (a + b)[1..] == a[1..] + b;
      ReadLinesAppend(a[1..], b, read);
    }
  }

  /** Dropping lines that are no header of interest, and ending with an empty line, thins the headers. */
  lemma {:induction false} KeptThins(lines: seq<string>, drop: string -> bool, read: string -> Header)
    requires forall l :: drop(l) ==> read(l).Field? && read(l).name == Other
    requires read("") == End
    ensures Thinned(ReadLines(lines, read), ReadLines(Kept(lines, drop) + [""], read))
  {
    if lines == [] {
      ReadLinesCons("", [], read);
      assert [] + [""] == [""] + [];
    } else {
      var x, rest := lines[0], lines[1..];
      KeptThins(rest, drop, read);
      KeptCons(lines, drop);
      ReadLinesCons(x, rest, read);
      assert [x] + rest == lines;
      var kept := Kept(rest, drop) + [""];
      if !drop(x) {
        ReadLinesCons(x, kept, read);
        assert Kept(lines, drop) + [""] == [x] + kept;
        ThinnedCons(read(x), ReadLines(rest, read), ReadLines(kept, read));
      } else {
        ThinnedDrop(read(x), ReadLines(rest, read), ReadLines(kept, read));
      }
    }
  }

  lemma ThinnedCons(h: Header, hs: seq<Header>, ks: seq<Header>)
    requires Thinned(hs, ks)
    ensures Thinned([h] + hs, [h] + ks)
  {
    assert ([h] + hs)[1..] == hs && ([h] + ks)[1..] == ks;
  }

  lemma ThinnedDrop(h: Header, hs: seq<Header>, ks: seq<Header>)
    requires Thinned(hs, ks) && h.Field? && h.name == Other
    ensures Thinned([h] + hs, ks)
  {
    assert ([h] + hs)[1..] == hs;
  }

  // ----- a credential start line is lost -----

  lemma {:induction false} StartLineStays(info: SipInfo, hs: seq<Header>)
    ensures ReadHeaders(info, hs).kind == info.kind
    ensures info.kind == REQUEST ==> ReadHeaders(info, hs).method_ == info.method_
    decreases |hs|
  {
    if hs != [] && !hs[0].End? {
      StartLineStays(if hs[0].Skip? then info else SetField(info, hs[0].name, hs[0].value), hs[1..]);
    }
  }

  /** The first space-separated word of a line, in lower case. */
  function FirstWord(line: string): string {
    Lower(CutAt(Trim(line), ' ').0)
  }

  lemma RequestMethod(line: string)
    ensures StartLine(line).kind == REQUEST ==> Lower(StartLine(line).method_) == FirstWord(line)
  {
    LowerOfUpper(CutAt(Trim(line), ' ').0);
  }

  lemma LowerOfUpper(s: string)
    ensures Lower(Upper(s)) == Lower(s)
  {
  }

  lemma CredentialStart(line: string)
    requires IsCredential(line)
    ensures StartLine(line).kind == REQUEST
    ensures AUTHORIZATION + ":" <= FirstWord(line) || PROXY_AUTHORIZATION + ":" <= FirstWord(line)
  {
    var t := Trim(line);
    var w := if AUTHORIZATION + ":" <= Lower(t) then AUTHORIZATION else PROXY_AUTHORIZATION;
    CredentialWords();
    WordInFront(t, w);
    NotSip(t, w);
    WordBeforeSpace(t, w);
  }

  lemma NotSip(t: string, w: string)
    requires HeaderWord(w) && t != "" && LowerChar(t[0]) == w[0]
    ensures !("SIP/" <= t)
  {
    assert t[0] != 'S';
  }

  lemma WordBeforeSpace(t: string, w: string)
    requires w + ":" <= Lower(t) && |w| < |t| && t[|w|] == ':' && forall i :: 0 <= i < |w| ==> !IsSpace(t[i])
    ensures w + ":" <= Lower(CutAt(t, ' ').0)
  {
    var i := IndexOf(t, ' ');
    var n := |w| + 1;
    var head := CutAt(t, ' ').0;
    assert i >= 0 ==> i >= n;
    assert |head| >= n && head[..n] == t[..n];
    assert Lower(head)[..n] == Lower(t)[..n];
  }

  lemma FirstWordIsPrefix(line: string, w: string)
    requires w <= FirstWord(line)
    ensures w <= Lower(Trim(line))
  {
    var t := Trim(line);
    var head := CutAt(t, ' ').0;
    assert Lower(head) == Lower(t)[..|head|];
  }

  /**
   Redaction preserves what is parsed exactly when the start line is not itself a credential line:
   headers that are removed were not parsed, but a removed start line always is missed.
   */
  lemma RedactionPreservesParse(msg: string)
    ensures Parse(Redact(msg)) == Parse(msg) <==> !IsCredential(Lines(msg)[0])
  {
    var lines := Lines(msg);
    RedactedLines(msg);
    if IsCredential(lines[0]) {
      RemovedStartMissed(lines[0], lines[1..], Lines(Redact(msg)));
    } else {
      forall l | IsCredential(l) ensures HeaderOf(l).Field? && HeaderOf(l).name == Other {
        CredentialIsNoField(l);
      }
      EmptyLineEnds();
      KeptReads(StartLine(lines[0]), lines, IsCredential, HeaderOf);
    }
  }

  lemma EmptyLineEnds()
    ensures HeaderOf("") == End
  {
    assert Trim("") == "";
  }

  lemma KeptReads(start: SipInfo, lines: seq<string>, drop: string -> bool, read: string -> Header)
    requires lines != [] && !drop(lines[0]) && read("") == End
    requires forall l :: drop(l) ==> read(l).Field? && read(l).name == Other
    ensures
      var after := Kept(lines, drop) + [""];
      after[0] == lines[0] && ReadHeaders(start, ReadLines(after[1..], read)) == ReadHeaders(start, ReadLines(lines[1..], read))
  {
    var after := Kept(lines, drop) + [""];
    KeptCons(lines, drop);
    assert after[1..] == Kept(lines[1..], drop) + [""];
    KeptThins(lines[1..], drop, read);
    ThinnedReads(start, ReadLines(lines[1..], read), ReadLines(after[1..], read));
  }

  lemma RemovedStartMissed(first: string, rest: seq<string>, after: seq<string>)
    requires after != []
    ensures IsCredential(first) && !IsCredential(after[0]) ==>
      ReadHeaders(StartLine(first), HeadersOf(rest)) != ParseLines(after)
  {
    StartLineStays(StartLine(first), HeadersOf(rest));
    StartLineStays(StartLine(after[0]), HeadersOf(after[1..]));
    RequestMethod(first);
    if IsCredential(first) {
      CredentialStart(first);
    }
    if IsCredential(first) && !IsCredential(after[0]) && StartLine(after[0]).kind == REQUEST {
      RequestMethod(after[0]);
      var w := if AUTHORIZATION + ":" <= FirstWord(first) then AUTHORIZATION else PROXY_AUTHORIZATION;
      assert !(w + ":" <= FirstWord(after[0])) by {
        if w + ":" <= FirstWord(after[0]) {
          FirstWordIsPrefix(after[0], w + ":");
        }
      }
    }
  }
}
