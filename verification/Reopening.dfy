/** Runs in which retention deletes a closed call's row and a later record of the call brings it back open. */
module Reopening {
  import opened Text
  import opened CallState
  import opened Database
  import opened DatabaseLaws
  import opened Pipeline
  import opened Record
  import opened RecordMaker
  import opened EndToEnd
  import Sip

  lemma {:induction false} RunAppend(s: State, a: seq<Step>, m: State, b: seq<Step>, t: State, parse: Parser)
    requires Run(s, a, m, parse) && Run(m, b, t, parse)
    ensures Run(s, a + b, t, parse)
    decreases |a|
  {
    if a == [] {
      assert a + b == b;
    } else {
      assert (a + b)[1..] == a[1..] + b;
      RunAppend(Next(s, a[0], parse), a[1..], m, b, t, parse);
    }
  }

  lemma OneStep(s: State, step: Step, parse: Parser)
    requires Enabled(s, step) && (s.writer.Parsing? ==> s.writer.next <= |s.batch|)
    ensures Run(s, [step], Next(s, step, parse), parse)
  {
    assert [step][1..] == [];
  }

  /** No other messages than these are counted. */
  predicate CountsOnly(steps: seq<Step>, ms: set<Message>) {
    forall step :: step in steps && step.Count? ==> step.m in ms
  }

  /** The first worker is idle, nothing is queued or batched, and the writer waits. */
  predicate Quiet(s: State) {
    s.workers != [] && s.workers[0].Idle? && s.queue == [] && s.batch == [] && s.writer.Selecting?
  }

  /** A worker counts a message and queues its record. */
  lemma {:induction false} Capture(s: State, m: Message, parse: Parser) returns (steps: seq<Step>, t: State)
    requires Quiet(s)
    ensures Run(s, steps, t, parse) && Quiet(t.(queue := [])) && t.queue == [m.record] && t.tables == s.tables
    ensures CountsOnly(steps, {m})
  {
    var s1 := DoCount(s, 0, m);
    var s2 := DoClassify(s1, 0);
    var s3 := DoTally(s2, 0);
    OneStep(s, Count(0, m), parse);
    OneStep(s1, Classify(0), parse);
    OneStep(s2, TallyMethod(0), parse);
    OneStep(s3, Send(0), parse);
    t := DoSend(s3, 0);
    RunAppend(s, [Count(0, m)], s1, [Classify(0)], s2, parse);
    RunAppend(s, [Count(0, m)] + [Classify(0)], s2, [TallyMethod(0)], s3, parse);
    steps := [Count(0, m)] + [Classify(0)] + [TallyMethod(0)] + [Send(0)];
    RunAppend(s, [Count(0, m)] + [Classify(0)] + [TallyMethod(0)], s3, [Send(0)], t, parse);
  }

  /** The writer takes the queued string and begins a flush of it. */
  lemma {:induction false} Take(s: State, text: string, parse: Parser) returns (steps: seq<Step>, t: State)
    requires Quiet(s.(queue := [])) && s.queue == [text]
    ensures Run(s, steps, t, parse) && t == s.(queue := [], batch := [text], writer := Parsing(0, [], false))
    ensures CountsOnly(steps, {})
  {
    var s1 := DoReceive(s);
    OneStep(s, Receive, parse);
    OneStep(s1, Tick, parse);
    t := StartFlush(s1, false);
    steps := [Receive] + [Tick];
    RunAppend(s, [Receive], s1, [Tick], t, parse);
  }

  lemma {:induction false} ParseOne(s: State, r: CaptureRecord, parse: Parser) returns (steps: seq<Step>, t: State)
    requires |s.batch| == 1 && s.writer == Parsing(0, [], false) && parse(s.batch[0]) == Some(r)
    ensures Run(s, steps, t, parse) && t == s.(writer := Inserting([r], false))
    ensures CountsOnly(steps, {})
  {
    var s1 := DoParse(s, parse);
    assert [] + [r] == [r];
    OneStep(s, ParseNext, parse);
    OneStep(s1, ParseNext, parse);
    t := DoParse(s1, parse);
    steps := [ParseNext] + [ParseNext];
    RunAppend(s, [ParseNext], s1, [ParseNext], t, parse);
  }

  lemma {:induction false} Commit(s: State, recs: seq<CaptureRecord>, parse: Parser) returns (steps: seq<Step>, t: State)
    requires s.writer == Inserting(recs, false)
    ensures Run(s, steps, t, parse) && t.workers == s.workers && t.queue == s.queue
    ensures t.batch == [] && t.writer.Selecting? && t.tables == InsertAll(s.tables, recs, s.batch)
    ensures CountsOnly(steps, {})
  {
    var s1 := DoWrite(s, true, 0);
    OneStep(s, Write(true, 0), parse);
    OneStep(s1, Account, parse);
    t := DoAccount(s1);
    steps := [Write(true, 0)] + [Account];
    RunAppend(s, [Write(true, 0)], s1, [Account], t, parse);
  }

  /** From a quiet state a message can be captured, written and accounted for. */
  lemma {:induction false} Deliver(s: State, m: Message, r: CaptureRecord, parse: Parser) returns (steps: seq<Step>, t: State)
    requires Quiet(s) && parse(m.record) == Some(r)
    ensures Run(s, steps, t, parse) && Quiet(t) && t.tables == Insert(s.tables, r, m.record)
    ensures CountsOnly(steps, {m})
  {
    var a, s1 := Capture(s, m, parse);
    var b, s2 := Take(s1, m.record, parse);
    var c, s3 := ParseOne(s2, r, parse);
    var d, s4 := Commit(s3, [r], parse);
    t := s4;
    RunAppend(s, a, s1, b, s2, parse);
    RunAppend(s, a + b, s2, c, s3, parse);
    RunAppend(s, a + b + c, s3, d, s4, parse);
    steps := a + b + c + d;
    InsertOneOnly(s.tables, r, m.record);
  }

  lemma InsertOneOnly(t: Tables, r: CaptureRecord, text: string)
    ensures InsertAll(t, [r], [text]) == Insert(t, r, text)
  {
    assert [r][..0] == [];
  }

  /**
   A run from the start: a call is closed, retention deletes its row, and its next record brings it back open.
   Any two records of one call will do, the first a BYE or CANCEL and the second neither.
   */
  lemma {:induction false} ClosedThenOpen(m: Message, r: CaptureRecord, later: Message, r2: CaptureRecord, parse: Parser)
    returns (before: seq<Step>, mid: State, after: seq<Step>, end: State)
    requires parse(m.record) == Some(r) && parse(later.record) == Some(r2)
    requires r.callId != "" && KeyOf(r2) == KeyOf(r) && Closes(r) && !Closes(r2)
    ensures Run(START, before, mid, parse) && Run(mid, after, end, parse) && CountsOnly(before + after, {m, later})
    ensures KeyOf(r) in mid.tables.calls && mid.tables.calls[KeyOf(r)].open == 0
    ensures KeyOf(r) in end.tables.calls && end.tables.calls[KeyOf(r)].open == 1
  {
    var s0 := Next(START, Spawn, parse);
    OneStep(START, Spawn, parse);
    var a, s1 := Deliver(s0, m, r, parse);
    before, mid := [Spawn] + a, s1;
    RunAppend(START, [Spawn], s0, a, s1, parse);
    var s2 := DoRetention(s1, r.tsMs + 1);
    OneStep(s1, Retention(r.tsMs + 1), parse);
    var b, s3 := Deliver(s2, later, r2, parse);
    after, end := [Retention(r.tsMs + 1)] + b, s3;
    RunAppend(s1, [Retention(r.tsMs + 1)], s2, b, s3, parse);
  }

  // ----- with real messages -----

  /** What a worker counts for a message: its record's text, and what the counters look at. */
  function Captured(meta: Meta, msg: string, base64: string -> string): Message {
    Message(RecordText(RecordOf(meta, msg, base64)), Sip.Parse(msg).kind == Sip.REQUEST, Sip.Parse(msg).method_)
  }

  predicate Representable(meta: Meta, msg: string) {
    Int64(meta.tsMs) && Int64(meta.hepNodeId) && Int64(Utf8Length(msg))
  }

  lemma {:induction false} Carried(
    steps: seq<Step>, meta: Meta, msg: string, meta2: Meta, later: string, base64: string -> string)
    requires Representable(meta, msg) && Representable(meta2, later)
    requires CountsOnly(steps, {Captured(meta, msg, base64), Captured(meta2, later, base64)})
    ensures StepsCarryMessages(steps, base64)
  {
    hide RecordText, RecordOf;
    FromSome(meta, msg, base64);
    FromSome(meta2, later, base64);
  }

  lemma FromSome(meta: Meta, msg: string, base64: string -> string)
    requires Representable(meta, msg)
    ensures FromMessage(RecordOf(meta, msg, base64), base64)
  {
    ParseSound(msg);
  }

  /**
   For any two messages of one call, seen by one agent, the first a BYE or CANCEL and the second neither: a run whose
   workers print just their two records, after which the closed call is open.
   */
  lemma {:induction false} MessagesReopen(meta: Meta, msg: string, meta2: Meta, later: string, base64: string -> string)
    returns (before: seq<Step>, mid: State, after: seq<Step>, end: State)
    requires Representable(meta, msg) && Representable(meta2, later) && meta2.agent == meta.agent
    requires Sip.Parse(msg).callId == Sip.Parse(later).callId != ""
    requires IsClose(Sip.Parse(msg)) && !IsClose(Sip.Parse(later))
    ensures Run(START, before, mid, ReadRecord) && Run(mid, after, end, ReadRecord)
    ensures StepsCarryMessages(before + after, base64)
    ensures
      var k := (Sip.Parse(msg).callId, meta.agent);
      && k in mid.tables.calls && mid.tables.calls[k].open == 0
      && k in end.tables.calls && end.tables.calls[k].open == 1
  {
    hide RecordText, ReadRecord, Sip.Parse, Run, StepsCarryMessages, Closes;
    MessageRoundTrip(meta, msg, base64);
    MessageRoundTrip(meta2, later, base64);
    FlagsOfMessage(meta, msg, base64);
    FlagsOfMessage(meta2, later, base64);
    before, mid, after, end := ClosedThenOpen(
      Captured(meta, msg, base64), RecordOf(meta, msg, base64),
      Captured(meta2, later, base64), RecordOf(meta2, later, base64), ReadRecord);
    Carried(before + after, meta, msg, meta2, later, base64);
  }
}
