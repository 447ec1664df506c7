/**
 Extraction of HEP3 frames from a byte stream (core-go/hep.go, core/hep.mko).

 A frame starts with the four magic bytes, followed by its own total length as a big-endian
 16-bit field. Anything that does not start a frame is skipped, one byte at a time in the Go core
 and by jumping to the next magic in the older Mako core.
 */
module HepStream {
  import opened Bytes

  /** The ASCII bytes of "HEP3". */
  const MAGIC: seq<byte> := [72, 69, 80, 51]
  const BUFFER_CAP := 2 * 1024 * 1024
  const READ_SIZE := 16384

  predicate HasMagic(b: seq<byte>) {
    MAGIC <= b
  }

  /** The first six bytes announce a frame whose length covers at least its own header. */
  predicate StartsFrame(b: seq<byte>)
    requires |b| >= 6
  {
    HasMagic(b) && U16(b, 4) >= 6
  }

  datatype Drained = Drained(frames: seq<seq<byte>>, rest: seq<byte>)

  /** The frames a buffer holds, in order, and the bytes that must wait for more input. */
  function Drain(b: seq<byte>): Drained
    decreases |b|
  {
    if |b| < 6 then Drained([], b)
    else if !StartsFrame(b) then Drain(b[1..])
    else if |b| < U16(b, 4) then Drained([], b)
    else
      var d := Drain(b[U16(b, 4)..]);
      Drained([b[..U16(b, 4)]] + d.frames, d.rest)
  }

  /** Draining `a` and later the remainder with `b` behind it is draining `a + b`. */
  lemma {:induction false} DrainSplit(a: seq<byte>, b: seq<byte>)
    ensures Drain(a + b).frames == Drain(a).frames + Drain(Drain(a).rest + b).frames
    ensures Drain(a + b).rest == Drain(Drain(a).rest + b).rest
    decreases |a|
  {
    hide U16;
    if |a| < 6 {
    } else {
      SamePrefix(a, b);
      if !StartsFrame(a) {
        assert (a + b)[1..] == a[1..] + b;
        DrainSplit(a[1..], b);
      } else if U16(a, 4) <= |a| {
        DrainSplitFrame(a, b);
        DrainSplit(a[U16(a, 4)..], b);
      }
    }
  }

  lemma DrainSplitFrame(a: seq<byte>, b: seq<byte>)
    requires |a| >= 6 && StartsFrame(a) && U16(a, 4) <= |a|
    ensures
      var n := U16(a, 4);
      && Drain(a) == Drained([a[..n]] + Drain(a[n..]).frames, Drain(a[n..]).rest)
      && Drain(a + b) == Drained([a[..n]] + Drain(a[n..] + b).frames, Drain(a[n..] + b).rest)
  {
    var n := U16(a, 4);
    SamePrefix(a, b);
    assert (a + b)[n..] == a[n..] + b && (a + b)[..n] == a[..n];
  }

  lemma SamePrefix(a: seq<byte>, b: seq<byte>)
    requires |a| >= 6
    ensures StartsFrame(a + b) == StartsFrame(a) && U16(a + b, 4) == U16(a, 4)
  {
    assert (a + b)[..4] == a[..4];
  }

  /** What is carried over is too short to be a frame and holds no complete one. */
  lemma {:induction false} RestIsStuck(b: seq<byte>)
    ensures var rest := Drain(b).rest; |rest| <= 65534 && Drain(rest) == Drained([], rest)
    decreases |b|
  {
    if |b| >= 6 {
      if !StartsFrame(b) {
        RestIsStuck(b[1..]);
      } else if U16(b, 4) <= |b| {
        RestIsStuck(b[U16(b, 4)..]);
      }
    }
  }

  /** A whole frame: it starts like one and is as long as it says. */
  predicate IsFrame(f: seq<byte>) {
    |f| >= 6 && StartsFrame(f) && U16(f, 4) == |f|
  }

  /** Only whole frames are dispatched, and never more bytes than came in. */
  lemma {:induction false} DrainedAreFrames(b: seq<byte>)
    ensures forall f :: f in Drain(b).frames ==> IsFrame(f)
    ensures |Flatten(Drain(b).frames)| + |Drain(b).rest| <= |b|
    decreases |b|
  {
    if |b| >= 6 {
      if !StartsFrame(b) {
        DrainedAreFrames(b[1..]);
      } else if U16(b, 4) <= |b| {
        var n := U16(b, 4);
        DrainedAreFrames(b[n..]);
        assert b[..n][..4] == b[..4];
        assert Drain(b).frames[1..] == Drain(b[n..]).frames;
      }
    }
  }

  function Flatten(fs: seq<seq<byte>>): seq<byte> {
    if fs == [] then [] else fs[0] + Flatten(fs[1..])
  }

  /** Noise before each frame, and noise at the end. */
  function Interleave(noise: seq<seq<byte>>, fs: seq<seq<byte>>): seq<byte>
    requires |noise| == |fs| + 1
  {
    if fs == [] then noise[0] else noise[0] + (fs[0] + Interleave(noise[1..], fs[1..]))
  }

  lemma DrainFrame(f: seq<byte>, t: seq<byte>)
    requires IsFrame(f)
    ensures Drain(f + t).frames == [f] + Drain(t).frames
  {
    SamePrefix(f, t);
    assert (f + t)[..|f|] == f && (f + t)[|f|..] == t;
  }

  // ----- the older extractor: jump to the next magic -----

  /** Position of the first magic in `b`, or -1. */
  function IndexOfMagic(b: seq<byte>): (i: int)
    ensures -1 <= i <= |b| - 4 || i == -1
    ensures i >= 0 ==> HasMagic(b[i..])
    ensures forall j :: 0 <= j < |b| && (i < 0 || j < i) ==> !HasMagic(b[j..])
  {
    if |b| < 4 then -1
    else if HasMagic(b) then 0
    else
      var k := IndexOfMagic(b[1..]);
      assert forall j :: 0 < j < |b| ==> b[j..] == b[1..][j - 1..];
      if k < 0 then -1 else k + 1
  }

  /** `m` is `g` without some leading bytes at which no magic starts, and starts with a magic itself. */
  predicate CutToMagic(g: seq<byte>, m: seq<byte>) {
    |m| <= |g| && m == g[|g| - |m|..] && HasMagic(m) && forall j :: 0 <= j < |g| - |m| ==> !HasMagic(g[j..])
  }

  predicate NoMagic(g: seq<byte>) {
    forall j :: 0 <= j < |g| ==> !HasMagic(g[j..])
  }

  /** The remainders the jump-to-magic drain can leave where byte-by-byte skipping leaves `g`. */
  predicate MakoRest(g: seq<byte>, m: seq<byte>) {
    m == g || CutToMagic(g, m) || (m == [] && |g| == 5 && NoMagic(g))
  }

  /** How many magics with an impossible length the extraction walks over. */
  function BadLengths(b: seq<byte>): nat
    decreases |b|
  {
    if |b| < 6 then 0
    else if !StartsFrame(b) then (if HasMagic(b) then 1 else 0) + BadLengths(b[1..])
    else if |b| < U16(b, 4) then 0
    else BadLengths(b[U16(b, 4)..])
  }

  /** Skipping to the first magic dispatches what skipping byte by byte does. */
  lemma {:induction false} SkipTo(b: seq<byte>, i: nat)
    requires i <= |b| && forall j :: 0 <= j < i ==> !HasMagic(b[j..])
    ensures Drain(b).frames == Drain(b[i..]).frames
    decreases i
  {
    assert b[0..] == b;
    if i > 0 {
      assert forall j :: 0 <= j < i - 1 ==> b[1..][j..] == b[j + 1..];
      SkipTo(b[1..], i - 1);
      assert b[1..][i - 1..] == b[i..];
    }
  }

  /** It also walks over no bad length, and leaves the same bytes unless fewer than six remain. */
  lemma {:induction false} SkipToRest(b: seq<byte>, i: nat)
    requires i <= |b| && forall j :: 0 <= j < i ==> !HasMagic(b[j..])
    ensures BadLengths(b) == BadLengths(b[i..])
    ensures |b| - i >= 6 ==> Drain(b).rest == Drain(b[i..]).rest
    ensures |b| - i < 6 <= |b| ==> Drain(b).rest == b[|b| - 5..]
    decreases i
  {
    assert b[0..] == b;
    if i > 0 {
      assert forall j :: 0 <= j < i - 1 ==> b[1..][j..] == b[j + 1..];
      SkipToRest(b[1..], i - 1);
      assert b[1..][i - 1..] == b[i..];
      if |b| == 6 {
        assert Drain(b) == Drain(b[1..]) == Drained([], b[1..]);
      } else if |b| > 6 {
        assert b[1..][|b| - 1 - 5..] == b[|b| - 5..];
      }
    }
  }

  /** The frames the Mako drain dispatches and the bytes it keeps. */
  function Mako(b: seq<byte>): Drained
    decreases |b|
  {
    if |b| < 6 then Drained([], b)
    else if !HasMagic(b) then
      var i := IndexOfMagic(b);
      if i <= 0 then Drained([], []) else Mako(b[i..])
    else if U16(b, 4) < 6 then Mako(b[1..])
    else if |b| < U16(b, 4) then Drained([], b)
    else
      var d := Mako(b[U16(b, 4)..]);
      Drained([b[..U16(b, 4)]] + d.frames, d.rest)
  }

  /** What is left of a buffer behind its last frame or bad length, after any jump to a magic. */
  function Tail(b: seq<byte>): (t: seq<byte>)
    ensures |t| <= |b|
    decreases |b|
  {
    if |b| < 6 then b
    else if !HasMagic(b) then
      var i := IndexOfMagic(b);
      if i <= 0 then b else Tail(b[i..])
    else if U16(b, 4) < 6 then Tail(b[1..])
    else if |b| < U16(b, 4) then b
    else Tail(b[U16(b, 4)..])
  }

  lemma JumpIsForward(b: seq<byte>)
    requires |b| >= 6 && !HasMagic(b)
    ensures IndexOfMagic(b) != 0 && (IndexOfMagic(b) < 0 ==> NoMagic(b))
  {
    assert b[0..] == b;
  }

  /** Jumping to the next magic dispatches what skipping byte by byte dispatches, on every buffer. */
  lemma {:induction false} MakoRefines(b: seq<byte>)
    ensures Mako(b).frames == Drain(b).frames
    decreases |b|
  {
    if |b| >= 6 {
      if !HasMagic(b) {
        var i := IndexOfMagic(b);
        JumpIsForward(b);
        if i < 0 {
          SkipTo(b, |b|);
        } else {
          SkipTo(b, i);
          MakoRefines(b[i..]);
        }
      } else if U16(b, 4) < 6 {
        MakoRefines(b[1..]);
      } else if U16(b, 4) <= |b| {
        MakoRefines(b[U16(b, 4)..]);
      }
    }
  }

  /** The bytes the Mako drain throws away: a tail of six bytes or more with no magic in it. */
  predicate Discards(b: seq<byte>) {
    |Tail(b)| >= 6 && NoMagic(Tail(b))
  }

  /** A tail that is kept, beside what byte-by-byte skipping keeps. */
  predicate KeptBeside(g: seq<byte>, t: seq<byte>) {
    MakoRest(g, t) && (t == [] ==> g == [])
  }

  lemma JumpKept(b: seq<byte>, i: nat)
    requires |b| >= 6 && !HasMagic(b) && IndexOfMagic(b) == i
    requires KeptBeside(Drain(b[i..]).rest, Tail(b[i..])) && !Discards(b[i..])
    ensures KeptBeside(Drain(b).rest, Tail(b))
  {
    SkipToRest(b, i);
    if |b| - i < 6 {
      var g, t := Drain(b).rest, b[i..];
      assert Tail(b[i..]) == t && g == b[|b| - 5..];
      forall j | 0 <= j < |g| - |t| ensures !HasMagic(g[j..]) {
        assert g[j..] == b[|b| - 5 + j..];
      }
      assert CutToMagic(g, t);
    }
  }

  lemma JumpDiscards(b: seq<byte>, i: nat)
    requires |b| >= 6 && !HasMagic(b) && IndexOfMagic(b) == i && Discards(b[i..])
    ensures Drain(b).rest == Drain(b[i..]).rest
  {
    SkipToRest(b, i);
  }

  /** Both remainders, by the tail alone. */
  lemma {:induction false} RestsByTail(b: seq<byte>)
    ensures Discards(b) ==> Mako(b).rest == [] && Drain(b).rest == Tail(b)[|Tail(b)| - 5..]
    ensures !Discards(b) ==> Mako(b).rest == Tail(b) && KeptBeside(Drain(b).rest, Tail(b))
    decreases |b|
  {
    hide U16, IndexOfMagic;
    assert b[0..] == b;
    if |b| >= 6 {
      if !HasMagic(b) {
        var i := IndexOfMagic(b);
        JumpIsForward(b);
        if i < 0 {
          SkipToRest(b, |b|);
        } else {
          RestsByTail(b[i..]);
          if Discards(b[i..]) {
            JumpDiscards(b, i);
          } else {
            JumpKept(b, i);
          }
        }
      } else if U16(b, 4) < 6 {
        RestsByTail(b[1..]);
      } else if U16(b, 4) <= |b| {
        RestsByTail(b[U16(b, 4)..]);
      }
    }
  }

  datatype MakoDrained = MakoDrained(frames: seq<seq<byte>>, rest: seq<byte>, errors: nat)

  /** The Mako drain: bytes without a magic are thrown away rather than kept for the next read. */
  method MakoDrain(buf: seq<byte>) returns (r: MakoDrained)
    ensures |buf| > 2097152 ==> r == MakoDrained([], [], 1)
    ensures |buf| <= 2097152 ==> r == MakoDrained(Drain(buf).frames, Mako(buf).rest, BadLengths(buf))
  {
    if |buf| > BUFFER_CAP {
      return MakoDrained([], [], 1);
    }
    var b, frames, errors := buf, [], 0;
    MakoRefines(buf);
    while |b| >= 6
      invariant MakoSoFar(buf, frames, errors, b)
      decreases |b|
    {
      MakoStep(buf, frames, errors, b);
      if !HasMagic(b) {
        var idx := IndexOfMagic(b);
        if idx < 0 {
          return MakoDrained(frames, [], errors);
        }
        JumpIsForward(b);
        b := b[idx..];
        continue;
      }
      var total := U16(b, 4);
      if total < 6 {
        b := b[1..];
        errors := errors + 1;
        continue;
      }
      if |b| < total {
        return MakoDrained(frames, b, errors);
      }
      var pkt := b[..total];
      frames := frames + [pkt];
      b := b[total..];
    }
    return MakoDrained(frames, b, errors);
  }

  /** With `frames` dispatched, `errors` counted and `b` left, going on gives what `buf` gives. */
  predicate MakoSoFar(buf: seq<byte>, frames: seq<seq<byte>>, errors: nat, b: seq<byte>) {
    frames + Mako(b).frames == Mako(buf).frames && Mako(b).rest == Mako(buf).rest
    && errors + BadLengths(b) == BadLengths(buf)
  }

  /** One turn of the loop, branch by branch. */
  lemma MakoStep(buf: seq<byte>, frames: seq<seq<byte>>, errors: nat, b: seq<byte>)
    requires |b| >= 6 && MakoSoFar(buf, frames, errors, b)
    ensures !HasMagic(b) ==>
      var i := IndexOfMagic(b);
      if i < 0 then MakoSoFar(buf, frames, errors, []) && Mako(buf).rest == [] else MakoSoFar(buf, frames, errors, b[i..])
    ensures HasMagic(b) && U16(b, 4) < 6 ==> MakoSoFar(buf, frames, errors + 1, b[1..])
    ensures HasMagic(b) && 6 <= U16(b, 4) <= |b| ==>
      MakoSoFar(buf, frames + [b[..U16(b, 4)]], errors, b[U16(b, 4)..])
    ensures HasMagic(b) && U16(b, 4) >= 6 && |b| < U16(b, 4) ==>
      frames == Mako(buf).frames && b == Mako(buf).rest && errors == BadLengths(buf)
  {
    if !HasMagic(b) {
      JumpIsForward(b);
      SkipToRest(b, if IndexOfMagic(b) < 0 then |b| else IndexOfMagic(b));
    }
  }

  /** The last one to three bytes could be the start of a magic that continues in the next read. */
  predicate TornMagic(g: seq<byte>) {
    exists p :: 1 <= p <= 3 && p <= |g| && g[|g| - p..] == MAGIC[..p]
  }

  /** Two remainders dispatch alike whatever is read next, unless one of them has lost a torn magic. */
  lemma RemaindersAlike(g: seq<byte>, m: seq<byte>)
    requires MakoRest(g, m)
    ensures (forall b :: Drain(m + b).frames == Drain(g + b).frames) <==> m == g || m != [] || !TornMagic(g)
  {
    if m == g || m != [] || !TornMagic(g) {
      forall b ensures Drain(m + b).frames == Drain(g + b).frames {
        if m != g {
          var k := |g| - |m|;
          forall j | 0 <= j < k ensures !HasMagic((g + b)[j..]) {
            NoMagicAcross(g, b, j);
          }
          SkipTo(g + b, k);
          assert (g + b)[k..] == m + b;
        }
      }
    } else {
      var p :| 1 <= p <= 3 && p <= |g| && g[|g| - p..] == MAGIC[..p];
      var b := MAGIC[p..] + [0, 6];
      TornMagicLost(g, b, p);
      assert m + b == b;
      assert Drain(m + b).frames != Drain(g + b).frames;
    }
  }

  lemma TornInLastFive(t: seq<byte>)
    requires |t| >= 6
    ensures TornMagic(t[|t| - 5..]) <==> TornMagic(t)
  {
    var g := t[|t| - 5..];
    assert g[|g| - 1..] == t[|t| - 1..] && g[|g| - 2..] == t[|t| - 2..] && g[|g| - 3..] == t[|t| - 3..];
  }

  /**
   Whatever is read next, what the Mako drain keeps of a buffer dispatches the frames that what the Go drain keeps
   does, if and only if the buffer's tail is not one that is thrown away although it ends in the start of a magic.
   */
  lemma MakoSplitSafe(buf: seq<byte>)
    ensures (forall b :: Drain(Mako(buf).rest + b).frames == Drain(Drain(buf).rest + b).frames)
      <==> !(|Tail(buf)| >= 6 && NoMagic(Tail(buf)) && TornMagic(Tail(buf)))
  {
    var g, m, t := Drain(buf).rest, Mako(buf).rest, Tail(buf);
    RestsByTail(buf);
    if Discards(buf) {
      TornInLastFive(t);
      assert NoMagic(g) by {
        forall j | 0 <= j < |g| ensures !HasMagic(g[j..]) {
          assert g[j..] == t[|t| - 5 + j..];
        }
      }
    }
    RemaindersAlike(g, m);
  }

  /** Six bytes that end in 'H', and the rest of a frame in the next read: the Go drain finds it, the Mako drain does not. */
  lemma FrameLost()
    ensures
      var buf: seq<byte>, next: seq<byte> := [0, 0, 0, 0, 0, 72], [69, 80, 51, 0, 6];
      Drain(Drain(buf).rest + next).frames == [MAGIC + [0, 6]] && Drain(Mako(buf).rest + next).frames == []
  {
    var buf: seq<byte>, next: seq<byte> := [0, 0, 0, 0, 0, 72], [69, 80, 51, 0, 6];
    forall j | 0 <= j < |buf| ensures !HasMagic(buf[j..]) {
      MagicAt(buf, j);
    }
    assert Tail(buf) == buf && Discards(buf);
    RestsByTail(buf);
    var g := buf[1..];
    forall j | 0 <= j < |g| ensures !HasMagic(g[j..]) {
      MagicAt(g, j);
    }
    assert next == MAGIC[1..] + [0, 6] && g[|g| - 1..] == MAGIC[..1];
    TornMagicLost(g, next, 1);
    assert [] + next == next;
  }

  lemma NoMagicAcross(g: seq<byte>, b: seq<byte>, j: nat)
    requires j < |g| && !HasMagic(g[j..])
    requires |g| - j < 4 ==> !TornMagic(g)
    ensures !HasMagic((g + b)[j..])
  {
    var t := (g + b)[j..];
    if |g| - j >= 4 {
      assert t[..4] == g[j..][..4];
    } else {
      var p := |g| - j;
      assert g[|g| - p..] == g[j..] == t[..p];
      assert t[..p] != MAGIC[..p];
    }
  }

  lemma TornMagicLost(g: seq<byte>, b: seq<byte>, p: nat)
    requires 1 <= p <= 3 && p <= |g| && g[|g| - p..] == MAGIC[..p] && NoMagic(g)
    requires b == MAGIC[p..] + [0, 6]
    ensures Drain(b).frames == []
    ensures Drain(g + b).frames == [MAGIC + [0, 6]]
  {
    TornEnd(b, p);
    TornFound(g, b, p);
  }

  /** The end of a torn frame is too short to be one. */
  lemma TornEnd(b: seq<byte>, p: nat)
    requires 1 <= p <= 3 && b == MAGIC[p..] + [0, 6]
    ensures Drain(b).frames == []
  {
  }

  lemma TornFound(g: seq<byte>, b: seq<byte>, p: nat)
    requires 1 <= p <= 3 && p <= |g| && g[|g| - p..] == MAGIC[..p] && NoMagic(g)
    requires b == MAGIC[p..] + [0, 6]
    ensures Drain(g + b).frames == [MAGIC + [0, 6]]
  {
    var k := |g| - p;
    Rejoin(g, p);
    NoEarlierMagic(g, b, k);
    SkipTo(g + b, k);
    ShortestFrame();
  }

  lemma Rejoin(g: seq<byte>, p: nat)
    requires 1 <= p <= 3 && p <= |g| && g[|g| - p..] == MAGIC[..p]
    ensures (g + (MAGIC[p..] + [0, 6]))[|g| - p..] == MAGIC + [0, 6]
    ensures g[|g| - p] == MAGIC[0]
  {
    var t := MAGIC[p..] + [0, 6];
    assert (g + t)[|g| - p..] == g[|g| - p..] + t;
    assert MAGIC[..p] + t == MAGIC + [0, 6];
    assert g[|g| - p] == g[|g| - p..][0];
  }

  lemma ShortestFrame()
    ensures Drain(MAGIC + [0, 6]).frames == [MAGIC + [0, 6]]
  {
    var f := MAGIC + [0, 6];
    assert StartsFrame(f) && U16(f, 4) == 6;
    assert f[..6] == f && f[6..] == [];
  }

  /** A magic cannot begin before a byte that is itself the first byte of a magic. */
  lemma NoEarlierMagic(g: seq<byte>, b: seq<byte>, k: nat)
    requires NoMagic(g) && k < |g| && g[k] == MAGIC[0]
    requires |g| - k < 4
    ensures forall j :: 0 <= j < k ==> !HasMagic((g + b)[j..])
  {
    forall j | 0 <= j < k ensures !HasMagic((g + b)[j..]) {
      assert !HasMagic(g[j..]);
      MagicAt(g, j);
      MagicAt(g + b, j);
    }
  }

  lemma MagicAt(s: seq<byte>, j: nat)
    requires j <= |s|
    ensures HasMagic(s[j..]) <==> j + 4 <= |s| && s[j] == 72 && s[j + 1] == 69 && s[j + 2] == 80 && s[j + 3] == 51
  {
    assert j + 4 <= |s| ==> (HasMagic(s[j..]) <==> s[j..][..4] == MAGIC);
  }

  // ----- frames between noise -----

  /** A magic cannot straddle the join when what follows is empty or begins with the first magic byte. */
  lemma NoiseEndsBefore(g: seq<byte>, t: seq<byte>)
    requires NoMagic(g) && (t == [] || t[0] == MAGIC[0])
    ensures forall j :: 0 <= j < |g| ==> !HasMagic((g + t)[j..])
  {
    forall j | 0 <= j < |g| ensures !HasMagic((g + t)[j..]) {
      assert !HasMagic(g[j..]);
      MagicAt(g, j);
      MagicAt(g + t, j);
    }
  }

  /** Noise without a magic, `H` bytes and all, hides no frame behind it. */
  lemma SkipNoise(g: seq<byte>, t: seq<byte>)
    requires NoMagic(g) && (t == [] || t[0] == MAGIC[0])
    ensures Drain(g + t).frames == Drain(t).frames
  {
    NoiseEndsBefore(g, t);
    SkipTo(g + t, |g|);
    assert (g + t)[|g|..] == t;
  }

  /** Frames sent back to back, with any noise between them that has no magic, are dispatched exactly and in order. */
  lemma {:induction false} ResyncFindsAll(noise: seq<seq<byte>>, fs: seq<seq<byte>>)
    requires |noise| == |fs| + 1
    requires forall g :: g in noise ==> NoMagic(g)
    requires forall f :: f in fs ==> IsFrame(f)
    ensures Drain(Interleave(noise, fs)).frames == fs
  {
    if fs == [] {
      SkipNoise(noise[0], []);
      assert noise[0] + [] == noise[0];
    } else {
      var t := Interleave(noise[1..], fs[1..]);
      assert IsFrame(fs[0]) && fs[0][..4] == MAGIC;
      SkipNoise(noise[0], fs[0] + t);
      DrainFrame(fs[0], t);
      ResyncFindsAll(noise[1..], fs[1..]);
    }
  }
}
