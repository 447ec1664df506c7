/** From parsed messages to table rows: what a run of the pipeline stores when its workers print records as they do. */
module EndToEnd {
  import opened Text
  import opened CallState
  import opened Database
  import opened DatabaseLaws
  import opened Pipeline
  import opened PipelineSafety
  import opened Record
  import opened RecordMaker
  import Sip

  /** The reader undoes the printer on the records of interest. */
  ghost predicate Undoes(parse: Parser, text: CaptureRecord -> string, ok: CaptureRecord -> bool) {
    forall r :: ok(r) ==> parse(text(r)) == Some(r)
  }

  /** A string that is the text of a record of interest. */
  ghost predicate IsText(s: string, text: CaptureRecord -> string, ok: CaptureRecord -> bool) {
    exists r :: ok(r) && s == text(r)
  }

  ghost predicate AllTexts(ss: seq<string>, text: CaptureRecord -> string, ok: CaptureRecord -> bool) {
    forall s :: s in ss ==> IsText(s, text, ok)
  }

  ghost predicate WorkersPrint(ws: seq<Worker>, text: CaptureRecord -> string, ok: CaptureRecord -> bool) {
    forall w :: w in ws ==> w.Idle? || IsText(w.m.record, text, ok)
  }

  /** Workers hold and have sent nothing but texts of records of interest. */
  ghost predicate Printing(s: State, text: CaptureRecord -> string, ok: CaptureRecord -> bool) {
    WorkersPrint(s.workers, text, ok) && AllTexts(s.sent, text, ok)
  }

  /** Every message counted on the way carries such a text. */
  ghost predicate StepsPrint(steps: seq<Step>, text: CaptureRecord -> string, ok: CaptureRecord -> bool) {
    forall step :: step in steps && step.Count? ==> IsText(step.m.record, text, ok)
  }

  lemma {:induction false} WorkerMoves(
    s: State, t: State, i: nat, w: Worker, text: CaptureRecord -> string, ok: CaptureRecord -> bool)
    requires i < |s.workers| && Printing(s, text, ok) && (w.Idle? || IsText(w.m.record, text, ok))
    requires t.workers == s.workers[i := w]
    requires forall x :: x in t.sent ==> x in s.sent || IsText(x, text, ok)
    ensures Printing(t, text, ok)
  {
  }

  lemma {:induction false} PrintingStep(
    s: State, step: Step, parse: Parser, text: CaptureRecord -> string, ok: CaptureRecord -> bool)
    requires Enabled(s, step) && Inv(s, parse) && Printing(s, text, ok)
    requires step.Count? ==> IsText(step.m.record, text, ok)
    ensures Printing(Next(s, step, parse), text, ok)
  {
    hide Conserved, InOrder, RollupMatches, IdsInOrder, IsText;
    var t := Next(s, step, parse);
    match step
    case Spawn => assert t.workers == s.workers + [Idle];
    case Count(w, m) => WorkerMoves(s, t, w, Counted(m), text, ok);
    case Classify(w) => assert s.workers[w] in s.workers; WorkerMoves(s, t, w, Classified(s.workers[w].m), text, ok);
    case TallyMethod(w) => assert s.workers[w] in s.workers; WorkerMoves(s, t, w, Worker.Tallied(s.workers[w].m), text, ok);
    case Send(w) => assert s.workers[w] in s.workers; WorkerMoves(s, t, w, Idle, text, ok);
    case _ => assert t.workers == s.workers && t.sent == s.sent;
  }

  lemma {:induction false} PrintingRun(
    s: State, steps: seq<Step>, t: State, parse: Parser, text: CaptureRecord -> string, ok: CaptureRecord -> bool)
    requires Run(s, steps, t, parse) && Inv(s, parse) && Printing(s, text, ok) && StepsPrint(steps, text, ok)
    ensures Printing(t, text, ok)
    decreases |steps|
  {
    hide Printing, Inv, Next, Enabled, IsText;
    if steps != [] {
      assert steps[0] in steps;
      PrintingStep(s, steps[0], parse, text, ok);
      StepKeepsInv(s, steps[0], parse);
      PrintingRun(Next(s, steps[0], parse), steps[1..], t, parse, text, ok);
    }
  }

  // ----- what such strings become -----

  /** A row whose stored text is its own record's. */
  ghost predicate TrueRow(row: Row, text: CaptureRecord -> string, ok: CaptureRecord -> bool) {
    ok(row.0) && row.1 == text(row.0)
  }

  lemma {:induction false} BatchParses(
    batch: seq<string>, parse: Parser, text: CaptureRecord -> string, ok: CaptureRecord -> bool)
    requires Undoes(parse, text, ok) && AllTexts(batch, text, ok)
    ensures |Parsed(batch, parse)| == |batch|
    ensures forall i :: 0 <= i < |batch| ==> TrueRow((Parsed(batch, parse)[i], batch[i]), text, ok)
  {
    if batch != [] {
      var n := |batch| - 1;
      BatchParses(batch[..n], parse, text, ok);
      assert batch[n] in batch;
      var r :| ok(r) && batch[n] == text(r);
    }
  }

  lemma BatchRowsTrue(batch: seq<string>, parse: Parser, text: CaptureRecord -> string, ok: CaptureRecord -> bool)
    requires Undoes(parse, text, ok) && AllTexts(batch, text, ok)
    ensures forall row :: row in Pair(Parsed(batch, parse), batch) ==> TrueRow(row, text, ok)
  {
    BatchParses(batch, parse, text, ok);
    PairAt(Parsed(batch, parse), batch);
  }

  lemma {:induction false} CommittedTrue(
    fs: seq<Flush>, parse: Parser, text: CaptureRecord -> string, ok: CaptureRecord -> bool)
    requires Undoes(parse, text, ok) && AllTexts(Strings(fs), text, ok)
    ensures forall row :: row in CommittedRows(fs, parse) ==> TrueRow(row, text, ok)
  {
    if fs != [] {
      var n := |fs| - 1;
      assert forall s :: s in Strings(fs[..n]) ==> s in Strings(fs);
      assert forall s :: s in fs[n].batch ==> s in Strings(fs);
      CommittedTrue(fs[..n], parse, text, ok);
      BatchRowsTrue(fs[n].batch, parse, text, ok);
    }
  }

  /** Every capture in the log is a record of interest beside its own text. */
  ghost predicate LogTrue(log: seq<Stored>, text: CaptureRecord -> string, ok: CaptureRecord -> bool) {
    forall x :: x in log ==> TrueRow((x.rec, x.recordJson), text, ok)
  }

  /** What is queued and flushed is texts of records of interest. */
  lemma {:induction false} FlushedAreTexts(
    d: Tables, log: seq<Stored>, steps: seq<Step>, t: State, parse: Parser, text: CaptureRecord -> string,
    ok: CaptureRecord -> bool)
    requires Stands(d, log) && Run(Begin(d, log), steps, t, parse) && StepsPrint(steps, text, ok)
    ensures AllTexts(t.sent, text, ok) && AllTexts(Strings(t.flushes), text, ok)
  {
    hide Run, CommittedRows, IsText;
    BeginInv(d, log, parse);
    PrintingRun(Begin(d, log), steps, t, parse, text, ok);
    EveryRun(d, log, steps, t, parse);
    assert forall s :: s in Strings(t.flushes) ==> s in t.sent;
  }

  // ----- and every string of a committed flush is such a row -----

  function CommittedStrings(fs: seq<Flush>): seq<string> {
    if fs == [] then []
    else CommittedStrings(fs[..|fs| - 1]) + if fs[|fs| - 1].committed then fs[|fs| - 1].batch else []
  }

  /** Row for row, these strings and the records they parse to. */
  predicate RowsOfTexts(rows: seq<Row>, ss: seq<string>, parse: Parser) {
    |rows| == |ss| && forall i :: 0 <= i < |ss| ==> parse(ss[i]) == Some(rows[i].0) && rows[i].1 == ss[i]
  }

  lemma BatchInOrder(batch: seq<string>, parse: Parser, text: CaptureRecord -> string, ok: CaptureRecord -> bool)
    requires Undoes(parse, text, ok) && AllTexts(batch, text, ok)
    ensures RowsOfTexts(Pair(Parsed(batch, parse), batch), batch, parse)
  {
    BatchParses(batch, parse, text, ok);
    PairAt(Parsed(batch, parse), batch);
  }

  lemma {:induction false} RowsOfTextsAppend(a: seq<Row>, b: seq<Row>, s: seq<string>, u: seq<string>, parse: Parser)
    requires RowsOfTexts(a, s, parse) && RowsOfTexts(b, u, parse)
    ensures RowsOfTexts(a + b, s + u, parse)
  {
  }

  lemma {:induction false} CommittedInOrder(
    fs: seq<Flush>, parse: Parser, text: CaptureRecord -> string, ok: CaptureRecord -> bool)
    requires Undoes(parse, text, ok) && AllTexts(Strings(fs), text, ok)
    ensures RowsOfTexts(CommittedRows(fs, parse), CommittedStrings(fs), parse)
  {
    hide Undoes, IsText, Parsed, Pair, RowsOfTexts;
    if fs == [] {
      NoRows(parse);
    } else {
      var n := |fs| - 1;
      assert forall s :: s in Strings(fs[..n]) ==> s in Strings(fs);
      assert forall s :: s in fs[n].batch ==> s in Strings(fs);
      CommittedInOrder(fs[..n], parse, text, ok);
      BatchInOrder(fs[n].batch, parse, text, ok);
      NoRows(parse);
      RowsOfTextsAppend(
        CommittedRows(fs[..n], parse), if fs[n].committed then Pair(Parsed(fs[n].batch, parse), fs[n].batch) else [],
        CommittedStrings(fs[..n]), if fs[n].committed then fs[n].batch else [], parse);
    }
  }

  lemma NoRows(parse: Parser)
    ensures RowsOfTexts([], [], parse)
  {
  }

  /**
   The other way round: what a process adds to the log is, once each and in queue order, every string of the flushes that
   committed, with the record it parses to. With no flush failed and nothing waiting that is every string ever queued.
   */
  lemma {:induction false} QueuedAreStored(
    d: Tables, log: seq<Stored>, steps: seq<Step>, t: State, parse: Parser, text: CaptureRecord -> string,
    ok: CaptureRecord -> bool)
    requires Stands(d, log) && Run(Begin(d, log), steps, t, parse) && StepsPrint(steps, text, ok) && Undoes(parse, text, ok)
    ensures log <= t.log && RowsOfTexts(RowsIn(t.log)[|log|..], CommittedStrings(t.flushes), parse)
    ensures (forall f :: f in t.flushes ==> f.committed) && Pending(t) == [] && t.queue == [] ==>
      CommittedStrings(t.flushes) == t.sent
  {
    hide Run, CommittedRows, RowsOfTexts, IsText;
    FlushedAreTexts(d, log, steps, t, parse, text, ok);
    EveryRun(d, log, steps, t, parse);
    LogGrows(Begin(d, log), steps, t, parse);
    RowsInAt(log);
    CommittedInOrder(t.flushes, parse, text, ok);
    assert (RowsIn(log) + CommittedRows(t.flushes, parse))[|log|..] == CommittedRows(t.flushes, parse);
    if forall f :: f in t.flushes ==> f.committed {
      AllCommitted(t.flushes);
    }
  }

  /** The captures a process adds are records of interest beside their own texts, whatever was there before. */
  lemma {:induction false} NewRowsTrue(
    d: Tables, log: seq<Stored>, steps: seq<Step>, t: State, parse: Parser, text: CaptureRecord -> string,
    ok: CaptureRecord -> bool)
    requires Stands(d, log) && Run(Begin(d, log), steps, t, parse) && StepsPrint(steps, text, ok) && Undoes(parse, text, ok)
    ensures log <= t.log && LogTrue(t.log[|log|..], text, ok)
  {
    hide Run, TrueRow, IsText, Strings, Conserved, OkCountsRows, Stands, FlushOk, Bounded;
    FlushedAreTexts(d, log, steps, t, parse, text, ok);
    EveryRun(d, log, steps, t, parse);
    LogGrows(Begin(d, log), steps, t, parse);
    CommittedTrue(t.flushes, parse, text, ok);
    RowsInAt(log);
    RowsInAt(t.log);
    var rows := CommittedRows(t.flushes, parse);
    forall x | x in t.log[|log|..] ensures TrueRow((x.rec, x.recordJson), text, ok) {
      var i :| |log| <= i < |t.log| && t.log[i] == x;
      assert (x.rec, x.recordJson) == RowsIn(t.log)[i] == (RowsIn(log) + rows)[i];
      assert rows[i - |log|] in rows;
    }
  }

  lemma OldOrNew(log: seq<Stored>, all: seq<Stored>, text: CaptureRecord -> string, ok: CaptureRecord -> bool)
    requires log <= all && LogTrue(log, text, ok) && LogTrue(all[|log|..], text, ok)
    ensures LogTrue(all, text, ok)
  {
    hide TrueRow;
    assert all == log + all[|log|..];
  }

  /** Whatever the interleaving and the deletions, captures that are true to their texts stay so, and new ones are. */
  lemma {:induction false} CapturesTrue(
    d: Tables, log: seq<Stored>, steps: seq<Step>, t: State, parse: Parser, text: CaptureRecord -> string,
    ok: CaptureRecord -> bool)
    requires Stands(d, log) && LogTrue(log, text, ok)
    requires Run(Begin(d, log), steps, t, parse) && StepsPrint(steps, text, ok) && Undoes(parse, text, ok)
    ensures LogTrue(t.log, text, ok) && LogTrue(t.tables.captures, text, ok)
  {
    hide Run, TrueRow, CommittedRows, IsText, StepsPrint, RowsIn;
    NewRowsTrue(d, log, steps, t, parse, text, ok);
    EveryRun(d, log, steps, t, parse);
    OldOrNew(log, t.log, text, ok);
  }

  lemma {:induction false} AllCommitted(fs: seq<Flush>)
    requires forall f :: f in fs ==> f.committed
    ensures CommittedStrings(fs) == Strings(fs)
  {
    if fs != [] {
      AllCommitted(fs[..|fs| - 1]);
    }
  }

  // ----- records of SIP messages -----

  /** `r` is the record of a message, with numbers that fit 64 bits. */
  ghost predicate FromMessage(r: CaptureRecord, base64: string -> string) {
    InRange(r) && exists meta, msg :: r == RecordOf(meta, msg, base64)
  }

  /** Every message counted carries the JSON text of its record. */
  ghost predicate StepsCarryMessages(steps: seq<Step>, base64: string -> string) {
    forall step :: step in steps && step.Count? ==> exists r :: FromMessage(r, base64) && step.m.record == RecordText(r)
  }

  /** A 2xx response to an INVITE. */
  predicate IsAnswer(info: Sip.SipInfo) {
    info.kind == Sip.RESPONSE && info.method_ == "INVITE" && 200 <= info.status < 300
  }

  /** A BYE or CANCEL, request or response. */
  predicate IsClose(info: Sip.SipInfo) {
    info.method_ == "BYE" || info.method_ == "CANCEL"
  }

  /** What the stored row says of the message it came from. */
  ghost predicate Tells(x: Stored, meta: Meta, msg: string, base64: string -> string) {
    && x.rec == RecordOf(meta, msg, base64)
    && (AnswerRow(x) <==> IsAnswer(Sip.Parse(msg)))
    && (CloseRow(x) <==> IsClose(Sip.Parse(msg)))
  }

  lemma CarriedArePrinted(steps: seq<Step>, base64: string -> string, ok: CaptureRecord -> bool)
    requires StepsCarryMessages(steps, base64) && forall r :: FromMessage(r, base64) ==> ok(r)
    ensures StepsPrint(steps, RecordText, ok)
  {
    forall step | step in steps && step.Count? ensures IsText(step.m.record, RecordText, ok) {
      var r :| FromMessage(r, base64) && step.m.record == RecordText(r);
    }
  }

  /** A capture of some message, in range, beside its own JSON text. */
  ghost predicate Honest(x: Stored, base64: string -> string) {
    FromMessage(x.rec, base64) && x.recordJson == RecordText(x.rec)
  }

  ghost predicate AllHonest(log: seq<Stored>, base64: string -> string) {
    forall x :: x in log ==> Honest(x, base64)
  }

  lemma HonestIsTrue(log: seq<Stored>, base64: string -> string, ok: CaptureRecord -> bool)
    requires forall r :: ok(r) <==> FromMessage(r, base64)
    ensures LogTrue(log, RecordText, ok) <==> AllHonest(log, base64)
  {
    hide RecordText, FromMessage;
    if AllHonest(log, base64) {
      forall x | x in log ensures TrueRow((x.rec, x.recordJson), RecordText, ok) {
        assert Honest(x, base64);
      }
    }
    if LogTrue(log, RecordText, ok) {
      forall x | x in log ensures Honest(x, base64) {
        assert TrueRow((x.rec, x.recordJson), RecordText, ok);
      }
    }
  }

  lemma HonestTells(x: Stored, base64: string -> string)
    requires Honest(x, base64)
    ensures ReadRecord(x.recordJson) == Some(x.rec) && exists meta, msg :: Tells(x, meta, msg, base64)
  {
    hide RecordText, ReadRecord, RecordOf, Sip.Parse, IsAnswer, IsClose;
    InRangeOf(x.rec, base64);
    RecordRoundTrip(x.rec);
    TellsOf(x, base64);
  }

  lemma TellsOf(x: Stored, base64: string -> string)
    requires FromMessage(x.rec, base64)
    ensures exists meta, msg :: Tells(x, meta, msg, base64)
  {
    hide RecordOf, Sip.Parse, Answers, Closes, InRange;
    var meta, msg :| x.rec == RecordOf(meta, msg, base64);
    FlagsOfMessage(meta, msg, base64);
    assert Tells(x, meta, msg, base64);
  }

  /**
   Over every interleaving in which workers print the records of messages, on a database whose captures are such records:
   each row of captures holds the record of some message beside its own JSON text, and its answer and close flags are
   those of that message.
   */
  lemma {:induction false} CapturesAreMessages(
    d: Tables, log: seq<Stored>, steps: seq<Step>, t: State, base64: string -> string)
    requires Stands(d, log) && AllHonest(log, base64)
    requires Run(Begin(d, log), steps, t, ReadRecord) && StepsCarryMessages(steps, base64)
    ensures AllHonest(t.log, base64) && AllHonest(t.tables.captures, base64)
    ensures forall x :: x in t.log ==>
      ReadRecord(x.recordJson) == Some(x.rec) && exists meta, msg :: Tells(x, meta, msg, base64)
  {
    hide Run, Stands, RecordText, ReadRecord, LogTrue, AllTexts, FromMessage, Tells;
    var ok := (r: CaptureRecord) => FromMessage(r, base64);
    forall r | ok(r) ensures ReadRecord(RecordText(r)) == Some(r) {
      InRangeOf(r, base64);
      RecordRoundTrip(r);
    }
    CarriedArePrinted(steps, base64, ok);
    HonestIsTrue(log, base64, ok);
    CapturesTrue(d, log, steps, t, ReadRecord, RecordText, ok);
    HonestIsTrue(t.log, base64, ok);
    HonestIsTrue(t.tables.captures, base64, ok);
    forall x | x in t.log
      ensures ReadRecord(x.recordJson) == Some(x.rec) && exists meta, msg :: Tells(x, meta, msg, base64)
    {
      HonestTells(x, base64);
    }
  }

  lemma InRangeOf(r: CaptureRecord, base64: string -> string)
    requires FromMessage(r, base64)
    ensures InRange(r)
  {
  }

  /** A message of call `k` among the rows. */
  ghost predicate HoldsMessage(rows: seq<Stored>, k: Key, x: Stored, meta: Meta, msg: string, base64: string -> string) {
    InCall(rows, k, x) && Tells(x, meta, msg, base64)
  }

  /**
   A call's row after any such run: of the messages stored since the row was last removed, by this process or an earlier
   one, it is answered exactly if one is a 2xx to an INVITE and closed exactly if one is a BYE or CANCEL.
   */
  lemma {:induction false} CallTellsItsMessages(
    d: Tables, log: seq<Stored>, n: nat, steps: seq<Step>, t: State, base64: string -> string, k: Key)
    requires StandsSince(d, log, k, n) && AllHonest(log, base64)
    requires Run(Begin(d, log), steps, t, ReadRecord) && StepsCarryMessages(steps, base64) && k in t.tables.calls
    ensures
      var row, recent := t.tables.calls[k], Recent(d, log, n, steps, t, ReadRecord, k);
      && (row.answered == 1 <==>
          exists x, meta, msg :: HoldsMessage(recent, k, x, meta, msg, base64) && IsAnswer(Sip.Parse(msg)))
      && (row.open == 0 <==>
          exists x, meta, msg :: HoldsMessage(recent, k, x, meta, msg, base64) && IsClose(Sip.Parse(msg)))
  {
    hide Run, Stands, RowSince, LastRemoval, Tells, StepsCarryMessages, IsAnswer, IsClose, AllHonest;
    ClosedSinceRemoval(d, log, n, steps, t, ReadRecord, k);
    CapturesAreMessages(d, log, steps, t, base64);
    var recent := Recent(d, log, n, steps, t, ReadRecord, k);
    assert forall x :: InCall(recent, k, x) ==> x in t.log;
    MessagesAmong(recent, k, base64);
  }

  /** Where every record is a message's, a record with a flag is a message with that flag. */
  lemma MessagesAmong(rows: seq<Stored>, k: Key, base64: string -> string)
    requires forall x :: InCall(rows, k, x) ==> exists meta, msg :: Tells(x, meta, msg, base64)
    ensures (exists x :: InCall(rows, k, x) && AnswerRow(x)) <==>
      exists x, meta, msg :: HoldsMessage(rows, k, x, meta, msg, base64) && IsAnswer(Sip.Parse(msg))
    ensures (exists x :: InCall(rows, k, x) && CloseRow(x)) <==>
      exists x, meta, msg :: HoldsMessage(rows, k, x, meta, msg, base64) && IsClose(Sip.Parse(msg))
  {
    if x :| InCall(rows, k, x) && AnswerRow(x) {
      var meta, msg :| Tells(x, meta, msg, base64);
      assert HoldsMessage(rows, k, x, meta, msg, base64);
    }
    if x :| InCall(rows, k, x) && CloseRow(x) {
      var meta, msg :| Tells(x, meta, msg, base64);
      assert HoldsMessage(rows, k, x, meta, msg, base64);
    }
  }
}
