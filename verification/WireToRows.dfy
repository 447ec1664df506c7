/**
 The whole way: messages a sender encodes, a TCP stream cut into reads with noise in it, the collector, the workers and
 the writer in any interleaving, and the rows of the captures table.
 */
module WireToRows {
  import opened Bytes
  import opened Text
  import opened HepCodec
  import opened HepStream
  import opened HepCollector
  import opened HepEndToEnd
  import opened HepEncoder
  import opened HepRecord
  import opened CallState
  import opened Endpoints
  import opened Database
  import P = Pipeline
  import R = Record
  import RecordMaker
  import EndToEnd
  import Sip

  /** Stamped by the sender, or by the clock at some packet of the session. */
  predicate StampedIn(a: Accepted, ctx: Context, j: nat) {
    a.tsMs == Stamp(a.info, ctx.now(j)) && a.transport == ctx.transport
  }

  lemma {:induction false} AllStamped(st: CollectorState, frames: seq<seq<byte>>, ctx: Context)
    requires forall a :: a in st.accepted ==> exists j :: StampedIn(a, ctx, j)
    ensures forall a :: a in HandleAll(st, frames, ctx).accepted ==> exists j :: StampedIn(a, ctx, j)
    decreases |frames|
  {
    if frames != [] {
      var next := Handle(st, frames[0], ctx);
      forall a | a in next.accepted ensures exists j :: StampedIn(a, ctx, j) {
        if a !in st.accepted {
          assert StampedIn(a, ctx, HandledCount(st.metrics));
        }
      }
      AllStamped(next, frames[1..], ctx);
    }
  }

  lemma {:induction false} InfoOf(accepted: seq<Accepted>, a: Accepted)
    requires a in accepted
    ensures a.info in Infos(accepted)
  {
    if a != accepted[0] {
      InfoOf(accepted[1..], a);
    }
  }

  lemma {:induction false} AdmittedIsReceived(ms: seq<Message>, aton: string -> Option<Quad>, ctx: Context, info: HepInfo)
    requires forall m :: m in ms ==> Encode(m, aton).Some?
    requires info in AdmittedOf(ReceivedAll(ms, aton), ctx)
    ensures exists m :: m in ms && info == Decode(Encode(m, aton).value)
  {
    if ms != [] {
      RoundTrip(ms[0], aton, []);
      if info != ReceivedAll(ms, aton)[0] {
        assert info in AdmittedOf(ReceivedAll(ms[1..], aton), ctx);
        AdmittedIsReceived(ms[1..], aton, ctx, info);
      }
    }
  }

  /** The stream of a session: the sender's packets in order, with noise in which no magic starts. */
  ghost predicate Carries(input: seq<Read>, noise: seq<seq<byte>>, ms: seq<Message>, aton: string -> Option<Quad>) {
    && (forall m :: m in ms ==> Encode(m, aton).Some?)
    && |noise| == |ms| + 1 && (forall g :: g in noise ==> NoMagic(g))
    && Incoming(input) == Interleave(noise, EncodeAll(ms, aton))
  }

  const NONE_YET := CollectorState(HepMetrics(0, 0, 0, 0, 0, 0, 0, 0, 0, 0, 0, 0, 0), [])

  /** What is accepted over such a stream is what some message of the sender is accepted as. */
  lemma {:induction false} AcceptedFromSender(
    input: seq<Read>, noise: seq<seq<byte>>, ms: seq<Message>, aton: string -> Option<Quad>, ctx: Context, a: Accepted)
    requires Carries(input, noise, ms, aton) && a in SessionEnd(NONE_YET, input, ctx).accepted
    ensures exists m, j: nat :: m in ms && a == AcceptedOf(m, aton, ctx.now(j), ctx.transport)
  {
    hide Decode, Encode, Incoming, Interleave;
    StreamDelivers(NONE_YET, input, noise, ms, aton, ctx);
    InfoOf(SessionEnd(NONE_YET, input, ctx).accepted, a);
    assert Infos(NONE_YET.accepted) + AdmittedOf(ReceivedAll(ms, aton), ctx) == AdmittedOf(ReceivedAll(ms, aton), ctx);
    AdmittedIsReceived(ms, aton, ctx, a.info);
    AllStamped(NONE_YET, Drain(Incoming(input)).frames, ctx);
    var m :| m in ms && a.info == Decode(Encode(m, aton).value);
    var j: nat :| StampedIn(a, ctx, j);
    assert a == AcceptedOf(m, aton, ctx.now(j), ctx.transport);
  }

  // ----- the rows -----

  /** A session: what is read, the noise and the messages in it, and its surroundings. */
  datatype Session = Session(input: seq<Read>, noise: seq<seq<byte>>, ms: seq<Message>, ctx: Context)

  /** What the collector accepts in a session, counted from nothing. */
  function AcceptedIn(s: Session): seq<Accepted> {
    SessionEnd(NONE_YET, s.input, s.ctx).accepted
  }

  /** Every session carries encoded messages, with times and payload sizes that fit 64 bits. */
  ghost predicate AllCarry(sessions: seq<Session>, aton: string -> Option<Quad>, str: seq<byte> -> string) {
    forall s :: s in sessions ==> Carries(s.input, s.noise, s.ms, aton) && Writable(s.ms, s.ctx, str)
  }

  /** The record of a packet accepted in one of the sessions. */
  ghost predicate FromSessions(r: CaptureRecord, sessions: seq<Session>, str: seq<byte> -> string, base64: string -> string) {
    exists s, a :: s in sessions && a in AcceptedIn(s) && r == RecordFor(a, str, base64)
  }

  /** Workers count nothing but records of packets that were accepted. */
  ghost predicate CountsPackets(
    steps: seq<P.Step>, sessions: seq<Session>, str: seq<byte> -> string, base64: string -> string) {
    forall step :: step in steps && step.Count? ==>
      exists r :: FromSessions(r, sessions, str, base64) && step.m.record == R.RecordText(r)
  }

  ghost predicate Writable(ms: seq<Message>, ctx: Context, str: seq<byte> -> string) {
    (forall j: nat :: Int64(ctx.now(j))) && forall m :: m in ms ==> Int64(RecordMaker.Utf8Length(str(m.payload)))
  }

  /** The record of the sender's message `m`, accepted when the clock said `now`. */
  ghost predicate IsSent(r: CaptureRecord, m: Message, aton: string -> Option<Quad>, now: int, t: Transport,
                         str: seq<byte> -> string, base64: string -> string)
    requires Encode(m, aton).Some?
  {
    r == RecordFor(AcceptedOf(m, aton, now, t), str, base64)
  }

  lemma {:induction false} SentReadsBack(
    m: Message, aton: string -> Option<Quad>, now: int, t: Transport, str: seq<byte> -> string, base64: string -> string)
    requires Encode(m, aton).Some? && Int64(now) && Int64(RecordMaker.Utf8Length(str(m.payload)))
    ensures
      var r := RecordFor(AcceptedOf(m, aton, now, t), str, base64);
      R.ReadRecord(R.RecordText(r)) == Some(r)
  {
    hide R.ReadRecord, R.RecordText, Encode, Decode, RecordMaker.RecordOf;
    RoundTrip(m, aton, []);
    SentInRange(m, aton);
    RecordMaker.MessageRoundTrip(MetaOf(AcceptedOf(m, aton, now, t), str), str(m.payload), base64);
  }

  /** The record of some message of some session's sender. */
  ghost predicate SentIn(r: CaptureRecord, sessions: seq<Session>, aton: string -> Option<Quad>,
                         str: seq<byte> -> string, base64: string -> string)
    requires AllCarry(sessions, aton, str)
  {
    exists s, m, j: nat :: s in sessions && m in s.ms && IsSent(r, m, aton, s.ctx.now(j), s.ctx.transport, str, base64)
  }

  lemma {:induction false} SessionRecord(
    r: CaptureRecord, sessions: seq<Session>, aton: string -> Option<Quad>, str: seq<byte> -> string, base64: string -> string)
    requires AllCarry(sessions, aton, str) && FromSessions(r, sessions, str, base64)
    ensures R.ReadRecord(R.RecordText(r)) == Some(r) && SentIn(r, sessions, aton, str, base64)
  {
    hide R.RecordText, R.ReadRecord, RecordFor, AcceptedOf, SessionEnd, Encode;
    var s, a :| s in sessions && a in AcceptedIn(s) && r == RecordFor(a, str, base64);
    AcceptedFromSender(s.input, s.noise, s.ms, aton, s.ctx, a);
    var m, j: nat :| m in s.ms && a == AcceptedOf(m, aton, s.ctx.now(j), s.ctx.transport);
    SentReadsBack(m, aton, s.ctx.now(j), s.ctx.transport, str, base64);
    assert IsSent(r, m, aton, s.ctx.now(j), s.ctx.transport, str, base64);
  }

  /** The rows a process has stored so far, on a database with `log`. */
  function NewRows(log: seq<Stored>, t: P.State): seq<Stored>
    requires log <= t.log
  {
    t.log[|log|..]
  }

  /**
   Any number of sessions, any database at the start, any interleaving of workers and writer, any deletions: what the
   process stores is, row for row and in queue order, the strings of the flushes that committed, with nothing lost or
   repeated, and each row is the record of one of the senders' messages beside its own text.
   */
  lemma {:induction false} StreamsToRows(
    sessions: seq<Session>, aton: string -> Option<Quad>, str: seq<byte> -> string, base64: string -> string,
    d: Tables, log: seq<Stored>, steps: seq<P.Step>, t: P.State)
    requires AllCarry(sessions, aton, str) && CountsPackets(steps, sessions, str, base64)
    requires P.Stands(d, log) && P.Run(P.Begin(d, log), steps, t, R.ReadRecord)
    ensures log <= t.log
    ensures EndToEnd.RowsOfTexts(P.RowsIn(t.log)[|log|..], EndToEnd.CommittedStrings(t.flushes), R.ReadRecord)
    ensures (forall f :: f in t.flushes ==> f.committed) && P.Pending(t) == [] && t.queue == [] ==>
      EndToEnd.CommittedStrings(t.flushes) == t.sent
    ensures forall x :: x in NewRows(log, t) ==>
      x.recordJson == R.RecordText(x.rec) && SentIn(x.rec, sessions, aton, str, base64)
  {
    hide R.RecordText, R.ReadRecord, FromSessions, SentIn, AllCarry, P.Run, P.Stands, EndToEnd.RowsOfTexts;
    var ok := (r: CaptureRecord) => FromSessions(r, sessions, str, base64);
    forall r | ok(r) ensures R.ReadRecord(R.RecordText(r)) == Some(r) {
      SessionRecord(r, sessions, aton, str, base64);
    }
    forall step | step in steps && step.Count? ensures EndToEnd.IsText(step.m.record, R.RecordText, ok) {
      var r :| FromSessions(r, sessions, str, base64) && step.m.record == R.RecordText(r);
      assert ok(r);
    }
    EndToEnd.QueuedAreStored(d, log, steps, t, R.ReadRecord, R.RecordText, ok);
    EndToEnd.NewRowsTrue(d, log, steps, t, R.ReadRecord, R.RecordText, ok);
    forall x | x in NewRows(log, t)
      ensures x.recordJson == R.RecordText(x.rec) && SentIn(x.rec, sessions, aton, str, base64)
    {
      assert EndToEnd.TrueRow((x.rec, x.recordJson), R.RecordText, ok);
      SessionRecord(x.rec, sessions, aton, str, base64);
    }
  }

  /** The columns of a row as the sender filled them in. */
  ghost predicate HasFieldsOf(r: CaptureRecord, m: Message, now: int, str: seq<byte> -> string, base64: string -> string)
    requires m.srcPort >= 0 && m.dstPort >= 0
  {
    && r.src == EndpointText(m.srcIp, m.srcPort) && r.dst == EndpointText(m.dstIp, m.dstPort)
    && r.tsMs == (if m.tSec * 1000 + m.tUsec / 1000 <= 0 then now else m.tSec * 1000 + m.tUsec / 1000)
    && r.hepNodeId == m.nodeId && r.hepNode == str(m.nodeName) && r.hepCid == str(m.correlationId)
    && r.rawB64 == base64(Sip.Redact(str(m.payload))) && r.size == RecordMaker.Utf8Length(str(m.payload))
  }

  /** With addresses and names in the form the decoder prints, such a row has the sender's own endpoints, time and payload. */
  lemma {:induction false} SentFields(
    r: CaptureRecord, sessions: seq<Session>, aton: string -> Option<Quad>, str: seq<byte> -> string, base64: string -> string)
    requires AllCarry(sessions, aton, str) && SentIn(r, sessions, aton, str, base64)
    requires forall s, m :: s in sessions && m in s.ms ==> Encode(m, aton).Some? && Canonical(m, aton)
    ensures exists s, m, j: nat ::
      && s in sessions && m in s.ms && m.srcPort >= 0 && m.dstPort >= 0 && m.nodeId >= 0
      && HasFieldsOf(r, m, s.ctx.now(j), str, base64) && Labelled(r, m, s.ctx.transport, str)
  {
    hide Labelled, R.RecordText, R.ReadRecord, RecordFor, AcceptedOf, Encode, Canonical;
    var s, m, j: nat :| s in sessions && m in s.ms && IsSent(r, m, aton, s.ctx.now(j), s.ctx.transport, str, base64);
    SentInRange(m, aton);
    SenderToRecord(m, aton, s.ctx.now(j), s.ctx.transport, str, base64);
    SenderLabels(m, aton, s.ctx.now(j), s.ctx.transport, str, base64);
    assert HasFieldsOf(r, m, s.ctx.now(j), str, base64);
  }
}
