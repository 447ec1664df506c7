/** From the sender's messages to the collector's accepted list, across any stream of reads. */
module HepEndToEnd {
  import opened Bytes
  import opened Text
  import opened HepStream
  import opened HepCodec
  import opened HepEncoder
  import opened HepCollector

  function Infos(accepted: seq<Accepted>): seq<HepInfo> {
    if accepted == [] then [] else [accepted[0].info] + Infos(accepted[1..])
  }

  lemma {:induction false} InfosSnoc(accepted: seq<Accepted>, a: Accepted)
    ensures Infos(accepted + [a]) == Infos(accepted) + [a.info]
  {
    if accepted == [] {
      assert [a][1..] == [];
    } else {
      assert (accepted + [a])[1..] == accepted[1..] + [a];
      InfosSnoc(accepted[1..], a);
    }
  }

  /** The decoded messages that pass the password and peer checks. */
  function AdmittedOf(infos: seq<HepInfo>, ctx: Context): seq<HepInfo> {
    if infos == [] then [] else (if Admitted(infos[0], ctx) then [infos[0]] else []) + AdmittedOf(infos[1..], ctx)
  }

  function DecodeAll(frames: seq<seq<byte>>): (infos: seq<HepInfo>)
    ensures |infos| == |frames|
  {
    if frames == [] then [] else [Decode(frames[0])] + DecodeAll(frames[1..])
  }

  lemma HandleInfoAccepts(st: CollectorState, info: HepInfo, ctx: Context)
    ensures Infos(HandleInfo(st, info, ctx).accepted) ==
      Infos(st.accepted) + (if Admitted(info, ctx) then [info] else [])
  {
    if Admitted(info, ctx) {
      InfosSnoc(st.accepted, Accepted(info, Stamp(info, ctx.now(HandledCount(st.metrics))), ctx.transport));
    }
  }

  /** The collector accepts exactly the admitted packets, in the order they were dispatched. */
  lemma {:induction false} AcceptsInOrder(st: CollectorState, frames: seq<seq<byte>>, ctx: Context)
    ensures Infos(HandleAll(st, frames, ctx).accepted) == Infos(st.accepted) + AdmittedOf(DecodeAll(frames), ctx)
    decreases |frames|
  {
    if frames != [] {
      var info := Decode(frames[0]);
      HandleInfoAccepts(st, info, ctx);
      AcceptsInOrder(Handle(st, frames[0], ctx), frames[1..], ctx);
    }
  }

  /** What becomes of a decoded packet. */
  datatype Fate = Malformed | WrongPassword | RefusedPeer | Taken(protoType: byte)

  function FateOf(info: HepInfo, ctx: Context): Fate {
    if !info.ok then Malformed
    else if !PasswordOk(info, ctx) then WrongPassword
    else if !PeerAllowed(ctx) then RefusedPeer
    else Taken(info.protoType)
  }

  function Count(infos: seq<HepInfo>, f: Fate, ctx: Context): nat {
    if infos == [] then 0 else (if FateOf(infos[0], ctx) == f then 1 else 0) + Count(infos[1..], f, ctx)
  }

  /** What each counter counts, of the packets decoded in one session. */
  predicate Tells(before: HepMetrics, after: HepMetrics, infos: seq<HepInfo>, ctx: Context) {
    var good := |infos| - Count(infos, Malformed, ctx);
    && after.hepErr == before.hepErr + Count(infos, Malformed, ctx)
    && after.hepTotal == before.hepTotal + good
    && after.udp == before.udp + (if ctx.transport.Udp? then good else 0)
    && after.tcp == before.tcp + (if ctx.transport.Tcp? then good else 0)
    && after.tls == before.tls + (if ctx.transport.Tls? then good else 0)
    && after.authFail == before.authFail + Count(infos, WrongPassword, ctx)
    && after.deny == before.deny + Count(infos, RefusedPeer, ctx)
    && after.sip == before.sip + Count(infos, Taken(1), ctx)
    && after.rtcp == before.rtcp + Count(infos, Taken(5), ctx)
    && after.rtp == before.rtp + Count(infos, Taken(34), ctx)
    && after.rtcpXr == before.rtcpXr + Count(infos, Taken(35), ctx)
  }

  /** Every counter counts exactly the packets it is named for, over any number of packets. */
  lemma {:induction false} CountersTell(st: CollectorState, frames: seq<seq<byte>>, ctx: Context)
    ensures Tells(st.metrics, HandleAll(st, frames, ctx).metrics, DecodeAll(frames), ctx)
    decreases |frames|
  {
    if frames != [] {
      var info := Decode(frames[0]);
      var next := HandleInfo(st, info, ctx);
      CountersTell(next, frames[1..], ctx);
      OneTells(st, info, ctx);
      TellsCons(st.metrics, next.metrics, HandleAll(st, frames, ctx).metrics, info, DecodeAll(frames[1..]), ctx);
    }
  }

  lemma CountOne(info: HepInfo, f: Fate, ctx: Context)
    ensures Count([info], f, ctx) == if FateOf(info, ctx) == f then 1 else 0
  {
    assert [info][1..] == [];
  }

  lemma OneTells(st: CollectorState, info: HepInfo, ctx: Context)
    ensures Tells(st.metrics, HandleInfo(st, info, ctx).metrics, [info], ctx)
  {
    hide Count, PasswordOk, PeerAllowed, Stamp;
    forall f ensures Count([info], f, ctx) == if FateOf(info, ctx) == f then 1 else 0 {
      CountOne(info, f, ctx);
    }
  }

  lemma CountCons(info: HepInfo, infos: seq<HepInfo>, f: Fate, ctx: Context)
    ensures Count([info] + infos, f, ctx) == Count([info], f, ctx) + Count(infos, f, ctx)
  {
    assert [info][1..] == [] && ([info] + infos)[1..] == infos;
  }

  lemma {:induction false} TellsCons(
    a: HepMetrics, b: HepMetrics, c: HepMetrics, info: HepInfo, infos: seq<HepInfo>, ctx: Context)
    requires Tells(a, b, [info], ctx) && Tells(b, c, infos, ctx)
    ensures Tells(a, c, [info] + infos, ctx)
  {
    CountCons(info, infos, Malformed, ctx);
    CountCons(info, infos, WrongPassword, ctx);
    CountCons(info, infos, RefusedPeer, ctx);
    CountCons(info, infos, Taken(1), ctx);
    CountCons(info, infos, Taken(5), ctx);
    CountCons(info, infos, Taken(34), ctx);
    CountCons(info, infos, Taken(35), ctx);
  }

  /** What the receiver should hold for each message sent. */
  function ReceivedAll(ms: seq<Message>, aton: string -> Option<Quad>): (infos: seq<HepInfo>)
    requires forall m :: m in ms ==> Encode(m, aton).Some?
    ensures |infos| == |ms|
  {
    if ms == [] then []
    else
      assert Encode(ms[0], aton).Some?;
      [Received(ms[0], aton(ms[0].srcIp).value, aton(ms[0].dstIp).value)] + ReceivedAll(ms[1..], aton)
  }

  function EncodeAll(ms: seq<Message>, aton: string -> Option<Quad>): (fs: seq<seq<byte>>)
    requires forall m :: m in ms ==> Encode(m, aton).Some?
    ensures |fs| == |ms|
  {
    if ms == [] then [] else [Encode(ms[0], aton).value] + EncodeAll(ms[1..], aton)
  }

  lemma {:induction false} EncodedFrames(ms: seq<Message>, aton: string -> Option<Quad>)
    requires forall m :: m in ms ==> Encode(m, aton).Some?
    ensures forall f :: f in EncodeAll(ms, aton) ==> IsFrame(f)
    ensures DecodeAll(EncodeAll(ms, aton)) == ReceivedAll(ms, aton)
  {
    if ms != [] {
      RoundTrip(ms[0], aton, []);
      EncodedFrames(ms[1..], aton);
      assert EncodeAll(ms, aton)[1..] == EncodeAll(ms[1..], aton);
    }
  }

  lemma {:induction false} NoneAdmitted(infos: seq<HepInfo>, ctx: Context)
    requires !PeerAllowed(ctx)
    ensures AdmittedOf(infos, ctx) == []
  {
    if infos != [] {
      NoneAdmitted(infos[1..], ctx);
    }
  }

  /** The state a TCP session ends in. */
  function SessionEnd(st: CollectorState, input: seq<Read>, ctx: Context): CollectorState {
    if PeerAllowed(ctx) then After(st, Incoming(input), ctx) else Refuse(st)
  }

  /**
   A session that reads the encoded packets of `ms`, cut into reads in any way and with noise between them,
   has accepted at its end exactly the messages that pass the checks, with every field as it was sent.
   */
  lemma {:induction false} StreamDelivers(
    st: CollectorState, input: seq<Read>, noise: seq<seq<byte>>, ms: seq<Message>, aton: string -> Option<Quad>,
    ctx: Context)
    requires forall m :: m in ms ==> Encode(m, aton).Some?
    requires |noise| == |ms| + 1 && forall g :: g in noise ==> NoMagic(g)
    requires Incoming(input) == Interleave(noise, EncodeAll(ms, aton))
    ensures Infos(SessionEnd(st, input, ctx).accepted)
      == Infos(st.accepted) + AdmittedOf(ReceivedAll(ms, aton), ctx)
  {
    EncodedFrames(ms, aton);
    ResyncFindsAll(noise, EncodeAll(ms, aton));
    AcceptsInOrder(st, EncodeAll(ms, aton), ctx);
    if !PeerAllowed(ctx) {
      NoneAdmitted(ReceivedAll(ms, aton), ctx);
    }
  }

  // ----- who is let in -----

  /** Some entry of the list is how the host's text begins. */
  predicate Listed(host: string, allow: seq<string>) {
    exists i :: 0 <= i < |allow| && |allow[i]| <= |host| && host[..|allow[i]|] == allow[i]
  }

  /** The decoded messages that carry exactly this password, or all of them when there is none to carry. */
  function WithPassword(infos: seq<HepInfo>, password: seq<byte>): seq<HepInfo> {
    if infos == [] then []
    else
      (if infos[0].ok && (|password| == 0 || infos[0].nodePw == password) then [infos[0]] else [])
      + WithPassword(infos[1..], password)
  }

  lemma ListedIsAllowed(ctx: Context)
    ensures PeerAllowed(ctx) <==> |ctx.allow| == 0 || Listed(ctx.peerHost, ctx.allow)
  {
    if a :| a in ctx.allow && a <= ctx.peerHost {
      var i :| 0 <= i < |ctx.allow| && ctx.allow[i] == a;
      assert ctx.peerHost[..|ctx.allow[i]|] == ctx.allow[i];
    }
    if i :| 0 <= i < |ctx.allow| && |ctx.allow[i]| <= |ctx.peerHost| && ctx.peerHost[..|ctx.allow[i]|] == ctx.allow[i] {
      assert ctx.allow[i] in ctx.allow && ctx.allow[i] <= ctx.peerHost;
    }
  }

  lemma {:induction false} AdmittedByPassword(infos: seq<HepInfo>, ctx: Context)
    requires PeerAllowed(ctx)
    ensures AdmittedOf(infos, ctx) == WithPassword(infos, ctx.password)
  {
    hide PeerAllowed;
    if infos != [] {
      AdmittedByPassword(infos[1..], ctx);
    }
  }

  /**
   Over any packets, what is newly accepted are exactly the well-formed messages with the collector's password, or none
   when the collector has a list and no entry of it begins the peer's host.
   */
  lemma AcceptedExactly(st: CollectorState, frames: seq<seq<byte>>, ctx: Context)
    ensures Infos(HandleAll(st, frames, ctx).accepted) == Infos(st.accepted)
      + if |ctx.allow| == 0 || Listed(ctx.peerHost, ctx.allow) then WithPassword(DecodeAll(frames), ctx.password) else []
  {
    hide AdmittedOf, WithPassword, PeerAllowed, Listed, Infos;
    AcceptsInOrder(st, frames, ctx);
    ListedIsAllowed(ctx);
    if PeerAllowed(ctx) {
      AdmittedByPassword(DecodeAll(frames), ctx);
    } else {
      NoneAdmitted(DecodeAll(frames), ctx);
    }
  }

  /** The messages a sender sent with this password, or all when it is empty, without those that say nothing. */
  function SentWith(ms: seq<Message>, password: seq<byte>): (sent: seq<Message>)
    ensures forall m :: m in sent ==> m in ms
  {
    if ms == [] then []
    else
      (if (ms[0].payload != [] || ms[0].protoType > 0) && (|password| == 0 || ms[0].password == password) then [ms[0]]
       else []) + SentWith(ms[1..], password)
  }

  lemma {:induction false} ReceivedWithPassword(ms: seq<Message>, aton: string -> Option<Quad>, password: seq<byte>)
    requires forall m :: m in ms ==> Encode(m, aton).Some?
    ensures WithPassword(ReceivedAll(ms, aton), password) == ReceivedAll(SentWith(ms, password), aton)
  {
    hide Encode;
    if ms != [] {
      ReceivedWithPassword(ms[1..], aton, password);
      var more := SentWith(ms[1..], password);
      assert Encode(ms[0], aton).Some?;
      InRangeOfSent(ms[0], aton);
      assert ([ms[0]] + more)[1..] == more && [] + more == more;
    }
  }

  lemma InRangeOfSent(m: Message, aton: string -> Option<Quad>)
    requires Encode(m, aton).Some?
    ensures InRange(m)
  {
  }

  /** A session of a peer that no entry of the list begins is counted as denied, and nothing else comes of it. */
  lemma RefusedSession(st: CollectorState, input: seq<Read>, ctx: Context)
    requires |ctx.allow| > 0 && !Listed(ctx.peerHost, ctx.allow)
    ensures SessionEnd(st, input, ctx) == CollectorState(st.metrics.(deny := st.metrics.deny + 1), st.accepted)
  {
    ListedIsAllowed(ctx);
  }

  /** Of a sender's stream from a peer on the list exactly the messages with the collector's password are accepted. */
  lemma {:induction false} PasswordDelivers(
    st: CollectorState, input: seq<Read>, noise: seq<seq<byte>>, ms: seq<Message>, aton: string -> Option<Quad>,
    ctx: Context)
    requires forall m :: m in ms ==> Encode(m, aton).Some?
    requires |noise| == |ms| + 1 && forall g :: g in noise ==> NoMagic(g)
    requires Incoming(input) == Interleave(noise, EncodeAll(ms, aton))
    ensures Infos(SessionEnd(st, input, ctx).accepted) == Infos(st.accepted)
      + if |ctx.allow| == 0 || Listed(ctx.peerHost, ctx.allow) then ReceivedAll(SentWith(ms, ctx.password), aton) else []
  {
    hide Encode, PeerAllowed, Listed, WithPassword, SentWith, AdmittedOf, SessionEnd, Interleave, Incoming, Infos;
    StreamDelivers(st, input, noise, ms, aton, ctx);
    ListedIsAllowed(ctx);
    if PeerAllowed(ctx) {
      AdmittedByPassword(ReceivedAll(ms, aton), ctx);
      ReceivedWithPassword(ms, aton, ctx.password);
    } else {
      NoneAdmitted(ReceivedAll(ms, aton), ctx);
    }
  }
}
