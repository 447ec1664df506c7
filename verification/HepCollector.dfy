/**
 The collector behind the HEP3 listeners (core-go/hep.go): counters and acceptance of one packet,
 the drain of a stream buffer, and the TCP and TLS sessions over any cutting of the stream into reads.
 */
module HepCollector {
  import opened Bytes
  import opened HepStream
  import opened HepCodec

  datatype Transport = Udp | Tcp | Tls

  datatype HepMetrics = HepMetrics(
    hepErr: nat, hepTotal: nat, udp: nat, tcp: nat, tls: nat, authFail: nat, deny: nat,
    sip: nat, rtcp: nat, rtp: nat, rtcpXr: nat, other: nat, msgsTotal: nat)

  /** A message that goes on to the record writer, with its timestamp. */
  datatype Accepted = Accepted(info: HepInfo, tsMs: int, transport: Transport)

  datatype CollectorState = CollectorState(metrics: HepMetrics, accepted: seq<Accepted>)

  /** Configuration and environment of one session: `now(k)` is the clock when packet `k` is handled. */
  datatype Context = Context(password: seq<byte>, allow: seq<string>, peerHost: string, transport: Transport, now: nat -> int)

  function TsMs(info: HepInfo): int {
    info.tSec * 1000 + info.tUsec / 1000
  }

  predicate PasswordOk(info: HepInfo, ctx: Context) {
    ctx.password == [] || info.nodePw == ctx.password
  }

  predicate PeerAllowed(ctx: Context) {
    ctx.allow == [] || exists a :: a in ctx.allow && a <= ctx.peerHost
  }

  predicate Admitted(info: HepInfo, ctx: Context) {
    info.ok && PasswordOk(info, ctx) && PeerAllowed(ctx)
  }

  function HandledCount(m: HepMetrics): nat {
    m.hepErr + m.hepTotal
  }

  function Stamp(info: HepInfo, now: int): int {
    if TsMs(info) <= 0 then now else TsMs(info)
  }

  function CountTransport(m: HepMetrics, t: Transport): HepMetrics {
    match t
    case Udp => m.(udp := m.udp + 1)
    case Tcp => m.(tcp := m.tcp + 1)
    case Tls => m.(tls := m.tls + 1)
  }

  function CountProto(m: HepMetrics, protoType: byte): HepMetrics {
    match protoType
    case 1 => m.(sip := m.sip + 1)
    case 5 => m.(rtcp := m.rtcp + 1)
    case 34 => m.(rtp := m.rtp + 1)
    case 35 => m.(rtcpXr := m.rtcpXr + 1)
    case _ => m.(other := m.other + 1)
  }

  /** The state after one packet. */
  function Handle(st: CollectorState, pkt: seq<byte>, ctx: Context): CollectorState {
    HandleInfo(st, Decode(pkt), ctx)
  }

  function HandleInfo(st: CollectorState, info: HepInfo, ctx: Context): CollectorState {
    var m := st.metrics;
    if !info.ok then st.(metrics := m.(hepErr := m.hepErr + 1))
    else
      var m := CountTransport(m.(hepTotal := m.hepTotal + 1), ctx.transport);
      if !PasswordOk(info, ctx) then st.(metrics := m.(authFail := m.authFail + 1))
      else if !PeerAllowed(ctx) then st.(metrics := m.(deny := m.deny + 1))
      else
        var m := CountProto(m, info.protoType);
        CollectorState(
          m.(msgsTotal := m.msgsTotal + 1),
          st.accepted + [Accepted(info, Stamp(info, ctx.now(HandledCount(st.metrics))), ctx.transport)])
  }

  function HandleAll(st: CollectorState, frames: seq<seq<byte>>, ctx: Context): CollectorState
    decreases |frames|
  {
    if frames == [] then st else HandleAll(Handle(st, frames[0], ctx), frames[1..], ctx)
  }

  lemma {:induction false} HandleAllAppend(st: CollectorState, a: seq<seq<byte>>, b: seq<seq<byte>>, ctx: Context)
    ensures HandleAll(st, a + b, ctx) == HandleAll(HandleAll(st, a, ctx), b, ctx)
    decreases |a|
  {
    if a == [] {
      assert a + b == b;
    } else {
      assert (a + b)[1..] == a[1..] + b;
      HandleAllAppend(Handle(st, a[0], ctx), a[1..], b, ctx);
    }
  }

  lemma HandleAllSnoc(st: CollectorState, a: seq<seq<byte>>, f: seq<byte>, ctx: Context)
    ensures HandleAll(st, a + [f], ctx) == Handle(HandleAll(st, a, ctx), f, ctx)
  {
    HandleAllAppend(st, a, [f], ctx);
    var mid := HandleAll(st, a, ctx);
    assert HandleAll(mid, [f], ctx) == HandleAll(Handle(mid, f, ctx), [], ctx);
  }

  /** Every counted packet is in exactly one bucket of every breakdown. */
  predicate Balanced(st: CollectorState) {
    var m := st.metrics;
    && m.hepTotal == m.udp + m.tcp + m.tls
    && m.hepTotal == m.authFail + m.deny + m.msgsTotal
    && m.msgsTotal == m.sip + m.rtcp + m.rtp + m.rtcpXr + m.other
    && m.msgsTotal == |st.accepted|
  }

  lemma HandleKeepsBalance(st: CollectorState, info: HepInfo, ctx: Context)
    requires Balanced(st)
    ensures
      var next := HandleInfo(st, info, ctx);
      Balanced(next) && HandledCount(next.metrics) == HandledCount(st.metrics) + 1
  {
    hide PasswordOk, PeerAllowed, Stamp;
    if info.ok {
      var m := st.metrics.(hepTotal := st.metrics.hepTotal + 1);
      var m2 := CountTransport(m, ctx.transport);
      assert m2.hepTotal == m2.udp + m2.tcp + m2.tls == st.metrics.hepTotal + 1;
    }
  }

  /** Conservation over any number of packets: each is counted once, as an error or in every breakdown. */
  lemma {:induction false} RunBalanced(st: CollectorState, frames: seq<seq<byte>>, ctx: Context)
    requires Balanced(st)
    ensures Balanced(HandleAll(st, frames, ctx))
    ensures HandledCount(HandleAll(st, frames, ctx).metrics) == HandledCount(st.metrics) + |frames|
    decreases |frames|
  {
    if frames != [] {
      HandleKeepsBalance(st, Decode(frames[0]), ctx);
      RunBalanced(Handle(st, frames[0], ctx), frames[1..], ctx);
    }
  }

  /** With a positive clock every accepted message has a positive timestamp: the writer's "unset" zero never occurs. */
  lemma {:induction false} StampsPositive(st: CollectorState, frames: seq<seq<byte>>, ctx: Context)
    requires forall k :: ctx.now(k) > 0
    requires forall a :: a in st.accepted ==> a.tsMs > 0
    ensures forall a :: a in HandleAll(st, frames, ctx).accepted ==> a.tsMs > 0
    decreases |frames|
  {
    if frames != [] {
      StampsPositive(Handle(st, frames[0], ctx), frames[1..], ctx);
    }
  }

  datatype ReadError = NoError | Eof | Failed

  /** What one call to Read returned: up to one temporary buffer of bytes, possibly together with an error. */
  datatype Read = Read(data: seq<byte>, err: ReadError)

  /** The bytes a session takes in: everything up to and including the first read that reports an error. */
  function Incoming(input: seq<Read>): seq<byte> {
    if input == [] then []
    else if input[0].err != NoError then input[0].data
    else input[0].data + Incoming(input[1..])
  }

  /** The state once the bytes `got` have been drained, and what is left of them. */
  function After(st: CollectorState, got: seq<byte>, ctx: Context): CollectorState {
    HandleAll(st, Drain(got).frames, ctx)
  }

  /** A session of a peer that is not on the list ends at once and is only counted. */
  function Refuse(st: CollectorState): CollectorState {
    st.(metrics := st.metrics.(deny := st.metrics.deny + 1))
  }

  function Kept(got: seq<byte>): seq<byte> {
    Drain(got).rest
  }

  lemma AfterRead(st: CollectorState, got: seq<byte>, n: seq<byte>, ctx: Context)
    ensures HandleAll(After(st, got, ctx), Drain(Kept(got) + n).frames, ctx) == After(st, got + n, ctx)
    ensures Drain(Kept(got) + n).rest == Kept(got + n)
    ensures |Kept(got)| <= 65534 && Drain(Kept(got)).frames == []
  {
    DrainSplit(got, n);
    RestIsStuck(got);
    HandleAllAppend(st, Drain(got).frames, Drain(Kept(got) + n).frames, ctx);
  }

  /** `got` is what the first `i` reads brought in. */
  ghost predicate ReadSoFar(input: seq<Read>, i: nat, got: seq<byte>) {
    i <= |input| && Incoming(input) == got + Incoming(input[i..])
  }

  lemma IncomingAt(input: seq<Read>, i: nat)
    requires i < |input|
    ensures Incoming(input[i..]) == if input[i].err != NoError then input[i].data else input[i].data + Incoming(input[i + 1..])
  {
    assert input[i..][1..] == input[i + 1..];
  }

  lemma ReadMore(input: seq<Read>, i: nat, got: seq<byte>)
    requires ReadSoFar(input, i, got)
    ensures i == |input| ==> Incoming(input) == got
    ensures i < |input| && input[i].err == NoError ==> ReadSoFar(input, i + 1, got + input[i].data)
    ensures i < |input| && input[i].err != NoError ==> Incoming(input) == got + input[i].data
  {
    if i < |input| {
      IncomingAt(input, i);
    } else {
      assert input[i..] == [] && got + [] == got;
    }
  }

  /** With `done` dispatched and `rest` left, draining on gives what draining `buf` gives. */
  predicate DrainedSoFar(buf: seq<byte>, done: seq<seq<byte>>, rest: seq<byte>) {
    done + Drain(rest).frames == Drain(buf).frames && Drain(rest).rest == Drain(buf).rest
  }

  lemma DrainStep(buf: seq<byte>, done: seq<seq<byte>>, rest: seq<byte>)
    requires DrainedSoFar(buf, done, rest)
    ensures |rest| < 6 ==> done == Drain(buf).frames && rest == Drain(buf).rest
    ensures |rest| >= 6 && !StartsFrame(rest) ==> DrainedSoFar(buf, done, rest[1..])
    ensures |rest| >= 6 && StartsFrame(rest) && |rest| < U16(rest, 4) ==> done == Drain(buf).frames && rest == Drain(buf).rest
    ensures |rest| >= 6 && StartsFrame(rest) && |rest| >= U16(rest, 4) ==>
      DrainedSoFar(buf, done + [rest[..U16(rest, 4)]], rest[U16(rest, 4)..])
  {
  }

  class Collector {
    var state: CollectorState

    method HandlePacket(pkt: seq<byte>, ctx: Context)
      modifies this
      ensures state == Handle(old(state), pkt, ctx)
    {
      hide PasswordOk, PeerAllowed, Decode, TsMs;
      var info := HepDecode(pkt);
      var handled := HandledCount(state.metrics);
      if !info.ok {
        state := state.(metrics := state.metrics.(hepErr := state.metrics.hepErr + 1));
        return;
      }
      state := state.(metrics := state.metrics.(hepTotal := state.metrics.hepTotal + 1));
      match ctx.transport {
        case Udp => state := state.(metrics := state.metrics.(udp := state.metrics.udp + 1));
        case Tcp => state := state.(metrics := state.metrics.(tcp := state.metrics.tcp + 1));
        case Tls => state := state.(metrics := state.metrics.(tls := state.metrics.tls + 1));
      }
      if !PasswordOk(info, ctx) {
        state := state.(metrics := state.metrics.(authFail := state.metrics.authFail + 1));
        return;
      }
      if !PeerAllowed(ctx) {
        state := state.(metrics := state.metrics.(deny := state.metrics.deny + 1));
        return;
      }
      state := state.(metrics := CountProto(state.metrics, info.protoType));
      var tsMs := TsMs(info);
      if tsMs <= 0 {
        tsMs := ctx.now(handled);
      }
      state := CollectorState(
        state.metrics.(msgsTotal := state.metrics.msgsTotal + 1),
        state.accepted + [Accepted(info, tsMs, ctx.transport)]);
    }

    /** Hands every complete frame of `buf` to the packet handler and returns the bytes to keep. */
    method DrainHepFrames(buf: seq<byte>, ctx: Context) returns (rest: seq<byte>)
      modifies this
      ensures state == HandleAll(old(state), Drain(buf).frames, ctx)
      ensures rest == Drain(buf).rest
    {
      rest := buf;
      ghost var done: seq<seq<byte>> := [];
      while |rest| >= 6
        invariant DrainedSoFar(buf, done, rest)
        invariant state == HandleAll(old(state), done, ctx)
        decreases |rest|
      {
        MagicAt(rest, 0);
        assert rest[0..] == rest;
        DrainStep(buf, done, rest);
        if rest[0] != 72 || rest[1] != 69 || rest[2] != 80 || rest[3] != 51 {
          rest := rest[1..];
          continue;
        }
        var frameLen := U16(rest, 4);
        if frameLen < 6 || frameLen > 65535 {
          rest := rest[1..];
          continue;
        }
        if |rest| < frameLen {
          break;
        }
        HandleAllSnoc(old(state), done, rest[..frameLen], ctx);
        HandlePacket(rest[..frameLen], ctx);
        done := done + [rest[..frameLen]];
        rest := rest[frameLen..];
      }
      DrainStep(buf, done, rest);
    }

    /** One turn of the session loop: append, check the cap, drain, and drain once more at end of file. */
    method TakeRead(
      kept: seq<byte>, n: seq<byte>, err: ReadError, ctx: Context, ghost start: CollectorState, ghost got: seq<byte>)
      returns (buf: seq<byte>)
      requires |n| <= READ_SIZE && kept == Kept(got) && state == After(start, got, ctx)
      modifies this
      ensures buf == Kept(got + n) && state == After(start, got + n, ctx)
    {
      AfterRead(start, got, n, ctx);
      AfterRead(start, got + n, [], ctx);
      buf := kept;
      if |n| > 0 {
        buf := buf + n;
        if |buf| > BUFFER_CAP {
          assert false;
        }
      }
      assert buf == kept + n;
      buf := DrainHepFrames(buf, ctx);
      if err == Eof {
        var _ := DrainHepFrames(buf, ctx);
      }
    }

    /**
     A TCP session. However the stream is cut into reads, it ends in the state one drain of all bytes gives;
     the size cap never fires, and the drain repeated at end of file finds nothing.
     */
    method TcpSession(input: seq<Read>, ctx: Context)
      requires forall r :: r in input ==> |r.data| <= READ_SIZE
      modifies this
      ensures state == if PeerAllowed(ctx) then After(old(state), Incoming(input), ctx) else Refuse(old(state))
    {
      if !PeerAllowed(ctx) {
        state := state.(metrics := state.metrics.(deny := state.metrics.deny + 1));
        return;
      }
      var buf: seq<byte> := [];
      ghost var got: seq<byte> := [];
      var i := 0;
      while i < |input|
        invariant 0 <= i <= |input| && ReadSoFar(input, i, got)
        invariant buf == Kept(got)
        invariant state == After(old(state), got, ctx)
      {
        ReadMore(input, i, got);
        buf := TakeRead(buf, input[i].data, input[i].err, ctx, old(state), got);
        got := got + input[i].data;
        if input[i].err != NoError {
          return;
        }
        i := i + 1;
      }
      ReadMore(input, i, got);
    }

    /** A TLS session reads to the end, at most the cap, and drains once; an empty or failed read is dropped. */
    method TlsSession(data: seq<byte>, failed: bool, ctx: Context)
      modifies this
      ensures !PeerAllowed(ctx) ==> state == Refuse(old(state))
      ensures PeerAllowed(ctx) && failed ==> state == old(state)
      ensures PeerAllowed(ctx) && !failed ==>
        state == HandleAll(old(state), Drain(if |data| <= 2097152 then data else data[..2097152]).frames, ctx)
    {
      if !PeerAllowed(ctx) {
        state := state.(metrics := state.metrics.(deny := state.metrics.deny + 1));
        return;
      }
      var limited := if |data| <= BUFFER_CAP then data else data[..BUFFER_CAP];
      if failed || |limited| == 0 {
        return;
      }
      var _ := DrainHepFrames(limited, ctx);
    }
  }

  /** What the limited TLS read dispatches is a prefix of what the whole stream holds. */
  lemma TlsCapCutsTail(data: seq<byte>)
    requires |data| > 2097152
    ensures Drain(data[..2097152]).frames <= Drain(data).frames
  {
    DrainSplit(data[..BUFFER_CAP], data[BUFFER_CAP..]);
    assert data[..BUFFER_CAP] + data[BUFFER_CAP..] == data;
  }
}
