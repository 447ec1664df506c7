/**
 Capture workers, the bounded channel and the batching database writer (core-go/main.go, hep.go, sip.go, db.go)
 as a transition system: any number of workers, one writer, every interleaving of their atomic steps.
 */
module Pipeline {
  import opened Text
  import opened CallState
  import opened Database
  import opened DatabaseLaws

  const CHANNEL_CAPACITY := 4096
  const BATCH_SIZE := 100

  /** What a worker knows of the message it is handling. */
  datatype Message = Message(record: string, isRequest: bool, method_: string)

  /** A worker between two atomic steps: after counting, after classifying, after the method counter. */
  datatype Worker = Idle | Counted(m: Message) | Classified(m: Message) | Tallied(m: Message)

  /** The writer waits, or is somewhere inside a flush; `stopping` says that the flush is its last. */
  datatype Writer =
    | Selecting
    | Parsing(next: nat, recs: seq<CaptureRecord>, stopping: bool)
    | Inserting(recs: seq<CaptureRecord>, stopping: bool)
    | Accounting(recs: seq<CaptureRecord>, committed: bool, stopping: bool)
    | Stopped

  datatype Counters = Counters(msgsTotal: nat, requests: nat, responses: nat, dbOk: nat, dbErr: nat, dbDrop: nat,
                               methods: map<string, int>)

  /** A flush that reached the database: its strings and whether it committed. */
  datatype Flush = Flush(batch: seq<string>, committed: bool)

  /**
   `sent` and `flushes` record the history of the process, `log` every capture ever stored, deleted since or not, and
   `rows0` what the log held when the process began; everything else is the state of the program and its database.
   */
  datatype State = State(
    workers: seq<Worker>, queue: seq<string>, batch: seq<string>, writer: Writer, counters: Counters, tables: Tables,
    sent: seq<string>, flushes: seq<Flush>, log: seq<Stored>, rows0: seq<Row>)

  /** The statements a delete request runs, each on its own and at any time. */
  datatype Deletion = CapturesOf(callId: string) | CallsOf(callId: string) | CapturesBefore(ms: int) | CallsBefore(ms: int)

  datatype Step =
    | Spawn
    | Count(w: nat, m: Message)
    | Classify(w: nat)
    | TallyMethod(w: nat)
    | Send(w: nat)
    | Receive
    | Tick
    | Cancel
    | Retention(cutoffMs: int)
    | ParseNext
    | Write(committed: bool, burned: nat)
    | Account
    | Delete(what: Deletion)

  type Parser = string -> Option<CaptureRecord>

  predicate Enabled(s: State, step: Step) {
    match step
    case Spawn => true
    case Count(w, m) => w < |s.workers| && s.workers[w].Idle?
    case Classify(w) => w < |s.workers| && s.workers[w].Counted?
    case TallyMethod(w) => w < |s.workers| && s.workers[w].Classified?
    case Send(w) => w < |s.workers| && s.workers[w].Tallied?
    case Receive => s.writer.Selecting? && s.queue != []
    case Tick => s.writer.Selecting?
    case Cancel => s.writer.Selecting?
    case Retention(_) => s.writer.Selecting?
    case ParseNext => s.writer.Parsing?
    case Write(committed, _) => s.writer.Inserting? && (s.writer.recs == [] ==> committed)
    case Account => s.writer.Accounting?
    case Delete(what) => (what.CapturesOf? || what.CallsOf? ==> what.callId != "")
  }

  /** Entering `flush`: an empty batch returns at once. */
  function StartFlush(s: State, stopping: bool): State {
    if s.batch == [] then s.(writer := if stopping then Stopped else Selecting)
    else s.(writer := Parsing(0, [], stopping))
  }

  function Expire(calls: map<Key, CallRow>, cutoffMs: int): map<Key, CallRow> {
    map k | k in calls && calls[k].lastTsMs >= cutoffMs :: calls[k]
  }

  /** The captures that stay. */
  function Remaining(captures: seq<Stored>, keep: Stored -> bool): (r: seq<Stored>)
    ensures forall x :: x in r ==> x in captures
  {
    if captures == [] then []
    else
      var n := |captures| - 1;
      Remaining(captures[..n], keep) + if keep(captures[n]) then [captures[n]] else []
  }

  function DeleteFrom(t: Tables, what: Deletion): Tables {
    match what
    case CapturesOf(callId) => t.(captures := Remaining(t.captures, (x: Stored) => x.rec.callId != callId))
    case CapturesBefore(ms) => t.(captures := Remaining(t.captures, (x: Stored) => x.rec.tsMs >= ms))
    case CallsOf(callId) => t.(calls := map k | k in t.calls && k.0 != callId :: t.calls[k])
    case CallsBefore(ms) => t.(calls := Expire(t.calls, ms))
  }

  /** The tables as they would be had no capture ever been deleted. */
  function Full(t: Tables, log: seq<Stored>): Tables {
    t.(captures := log)
  }

  function DoCount(s: State, w: nat, m: Message): State
    requires w < |s.workers|
  {
    s.(workers := s.workers[w := Counted(m)], counters := s.counters.(msgsTotal := s.counters.msgsTotal + 1))
  }

  function DoClassify(s: State, w: nat): State
    requires w < |s.workers| && s.workers[w].Counted?
  {
    var c, m := s.counters, s.workers[w].m;
    s.(workers := s.workers[w := Classified(m)],
       counters := if m.isRequest then c.(requests := c.requests + 1) else c.(responses := c.responses + 1))
  }

  function DoTally(s: State, w: nat): State
    requires w < |s.workers| && s.workers[w].Classified?
  {
    var c, m := s.counters, s.workers[w].m;
    s.(workers := s.workers[w := Tallied(m)],
       counters := c.(methods := c.methods[m.method_ := Get(c.methods, m.method_) + 1]))
  }

  /** The non-blocking send: the record goes into the channel, or is dropped when the channel is full. */
  function DoSend(s: State, w: nat): State
    requires w < |s.workers| && s.workers[w].Tallied?
  {
    var ws, rec := s.workers[w := Idle], s.workers[w].m.record;
    if |s.queue| < CHANNEL_CAPACITY then s.(workers := ws, queue := s.queue + [rec], sent := s.sent + [rec])
    else s.(workers := ws, counters := s.counters.(dbDrop := s.counters.dbDrop + 1))
  }

  function DoReceive(s: State): State
    requires s.queue != []
  {
    var t := s.(queue := s.queue[1..], batch := s.batch + [s.queue[0]]);
    if |t.batch| >= BATCH_SIZE then StartFlush(t, false) else t
  }

  function DoParse(s: State, parse: Parser): State
    requires s.writer.Parsing? && s.writer.next <= |s.batch|
  {
    var i, recs, stopping := s.writer.next, s.writer.recs, s.writer.stopping;
    if i == |s.batch| then s.(writer := Inserting(recs, stopping))
    else if parse(s.batch[i]).Some? then s.(writer := Parsing(i + 1, recs + [parse(s.batch[i]).value], stopping))
    else s.(writer := Parsing(i + 1, recs, stopping), counters := s.counters.(dbErr := s.counters.dbErr + 1))
  }

  function DoWrite(s: State, committed: bool, burned: nat): State
    requires s.writer.Inserting?
  {
    s.(writer := Accounting(s.writer.recs, committed, s.writer.stopping),
       tables := if committed then InsertAll(s.tables, s.writer.recs, s.batch) else s.tables.(nextId := s.tables.nextId + burned),
       log := if committed then InsertAll(Full(s.tables, s.log), s.writer.recs, s.batch).captures else s.log,
       flushes := s.flushes + [Flush(s.batch, committed)])
  }

  function DoAccount(s: State): State
    requires s.writer.Accounting?
  {
    var c, n := s.counters, |s.writer.recs|;
    s.(writer := if s.writer.stopping then Stopped else Selecting,
       batch := [],
       counters := if s.writer.committed then c.(dbOk := c.dbOk + n) else c.(dbErr := c.dbErr + n))
  }

  function DoRetention(s: State, cutoffMs: int): State {
    s.(tables := DeleteFrom(s.tables, CallsBefore(cutoffMs)))
  }

  function Next(s: State, step: Step, parse: Parser): State
    requires Enabled(s, step)
    requires s.writer.Parsing? ==> s.writer.next <= |s.batch|
  {
    match step
    case Spawn => s.(workers := s.workers + [Idle])
    case Count(w, m) => DoCount(s, w, m)
    case Classify(w) => DoClassify(s, w)
    case TallyMethod(w) => DoTally(s, w)
    case Send(w) => DoSend(s, w)
    case Receive => DoReceive(s)
    case Tick => StartFlush(s, false)
    case Cancel => StartFlush(s, true)
    case Retention(cutoffMs) => DoRetention(s, cutoffMs)
    case ParseNext => DoParse(s, parse)
    case Write(committed, burned) => DoWrite(s, committed, burned)
    case Account => DoAccount(s)
    case Delete(what) => s.(tables := DeleteFrom(s.tables, what))
  }

  // ----- counting -----

  function InFlight(ws: seq<Worker>): nat {
    if ws == [] then 0 else InFlight(ws[1..]) + if ws[0].Idle? then 0 else 1
  }

  function Unclassified(ws: seq<Worker>): nat {
    if ws == [] then 0 else Unclassified(ws[1..]) + if ws[0].Counted? then 1 else 0
  }

  function Untallied(ws: seq<Worker>): nat {
    if ws == [] then 0 else Untallied(ws[1..]) + if ws[0].Counted? || ws[0].Classified? then 1 else 0
  }

  function Bit(b: bool): nat { if b then 1 else 0 }

  lemma {:induction false} SetWorker(ws: seq<Worker>, i: nat, w: Worker)
    requires i < |ws|
    ensures InFlight(ws[i := w]) == InFlight(ws) - Bit(!ws[i].Idle?) + Bit(!w.Idle?)
    ensures Unclassified(ws[i := w]) == Unclassified(ws) - Bit(ws[i].Counted?) + Bit(w.Counted?)
    ensures Untallied(ws[i := w]) ==
      Untallied(ws) - Bit(ws[i].Counted? || ws[i].Classified?) + Bit(w.Counted? || w.Classified?)
  {
    if i == 0 {
      assert ws[0 := w][1..] == ws[1..];
    } else {
      assert ws[i := w][1..] == ws[1..][i - 1 := w];
      SetWorker(ws[1..], i - 1, w);
    }
  }

  lemma {:induction false} AddIdle(ws: seq<Worker>)
    ensures InFlight(ws + [Idle]) == InFlight(ws)
    ensures Unclassified(ws + [Idle]) == Unclassified(ws)
    ensures Untallied(ws + [Idle]) == Untallied(ws)
  {
    if ws == [] {
      assert ([] + [Idle])[1..] == [];
    } else {
      assert (ws + [Idle])[1..] == ws[1..] + [Idle];
      AddIdle(ws[1..]);
    }
  }

  /** Messages the writer holds that no database counter covers yet. */
  function Unaccounted(s: State): int {
    match s.writer
    case Selecting => |s.batch|
    case Parsing(next, recs, _) => |s.batch| - (next - |recs|)
    case Inserting(recs, _) => |recs|
    case Accounting(recs, _, _) => |recs|
    case Stopped => 0
  }

  // ----- invariants -----

  /** Every counted message is in exactly one place, and the breakdown counters lag only by workers between steps. */
  ghost predicate Conserved(s: State) {
    var c := s.counters;
    && c.msgsTotal == c.dbDrop + |s.queue| + Unaccounted(s) + c.dbOk + c.dbErr + InFlight(s.workers)
    && c.msgsTotal == c.requests + c.responses + Unclassified(s.workers)
    && c.msgsTotal == Total(c.methods) + Untallied(s.workers)
  }

  predicate Bounded(s: State) {
    && |s.queue| <= CHANNEL_CAPACITY
    && |s.batch| <= BATCH_SIZE
    && (s.writer.Selecting? ==> |s.batch| < BATCH_SIZE)
    && (s.writer.Stopped? ==> s.batch == [])
  }

  /** Inside a flush the parsed records are those of the strings walked over so far. */
  predicate FlushOk(s: State, parse: Parser) {
    match s.writer
    case Parsing(next, recs, _) => next <= |s.batch| && recs == Parsed(s.batch[..next], parse)
    case Inserting(recs, _) => recs == Parsed(s.batch, parse)
    case Accounting(recs, committed, _) =>
      && recs == Parsed(s.batch, parse)
      && s.flushes != [] && s.flushes[|s.flushes| - 1] == Flush(s.batch, committed)
    case _ => true
  }

  function Strings(fs: seq<Flush>): seq<string> {
    if fs == [] then [] else Strings(fs[..|fs| - 1]) + fs[|fs| - 1].batch
  }

  /** The strings of the current batch that have not been handed to the database yet. */
  function Pending(s: State): seq<string> {
    if s.writer.Accounting? then [] else s.batch
  }

  /** The rows of the flushes that committed, in order. */
  function CommittedRows(fs: seq<Flush>, parse: Parser): seq<Row> {
    if fs == [] then []
    else
      var f := fs[|fs| - 1];
      CommittedRows(fs[..|fs| - 1], parse) + if f.committed then Pair(Parsed(f.batch, parse), f.batch) else []
  }

  function RowsIn(captures: seq<Stored>): (rows: seq<Row>)
    ensures |rows| == |captures|
  {
    if captures == [] then []
    else RowsIn(captures[..|captures| - 1]) + [(captures[|captures| - 1].rec, captures[|captures| - 1].recordJson)]
  }

  /** Nothing is lost, repeated or reordered between the channel and the database. */
  predicate InOrder(s: State, parse: Parser) {
    && s.sent == Strings(s.flushes) + Pending(s) + s.queue
    && RowsIn(s.log) == s.rows0 + CommittedRows(s.flushes, parse)
  }

  /** DBOk is the number of rows stored by the process, but for a commit not yet counted. */
  predicate OkCountsRows(s: State) {
    |s.log| == |s.rows0| + s.counters.dbOk + (if s.writer.Accounting? && s.writer.committed then |s.writer.recs| else 0)
  }

  ghost predicate Inv(s: State, parse: Parser) {
    && Bounded(s)
    && FlushOk(s, parse)
    && Conserved(s)
    && InOrder(s, parse)
    && OkCountsRows(s)
    && Stands(s.tables, s.log)
  }

  /**
   A database in order, with the log of all it ever stored: the rollup counts that log, ids increase, and the captures
   are a part of it.
   */
  ghost predicate Stands(t: Tables, log: seq<Stored>) {
    RollupMatches(Full(t, log)) && IdsInOrder(Full(t, log)) && IdsInOrder(t) && forall x :: x in t.captures ==> x in log
  }

  /** A process begins on a database that other processes may have filled; its counters begin at zero. */
  function Begin(t: Tables, log: seq<Stored>): State {
    State([], [], [], Selecting, Counters(0, 0, 0, 0, 0, 0, map[]), t, [], [], log, RowsIn(log))
  }

  lemma BeginInv(t: Tables, log: seq<Stored>, parse: Parser)
    requires Stands(t, log)
    ensures Inv(Begin(t, log), parse)
  {
    assert RowsIn(log) + [] == RowsIn(log);
    assert Total<string>(map[]) == 0;
  }

  const NEW_TABLES := Tables([], map[], map[], 1)

  /** The first process ever. */
  const START := Begin(NEW_TABLES, [])

  lemma NewTablesStand()
    ensures Stands(NEW_TABLES, [])
  {
    assert RollAll(map[], Recs([])) == map[];
  }

  // ----- every step keeps the invariant -----

  /** The parts of a state that database and batch invariants are about. */
  predicate SameWriterSide(s: State, t: State) {
    t.batch == s.batch && t.writer == s.writer && t.tables == s.tables && t.flushes == s.flushes
    && t.log == s.log && t.rows0 == s.rows0
    && t.counters.dbOk == s.counters.dbOk && t.counters.dbErr == s.counters.dbErr
  }

  lemma SpawnStep(s: State)
    requires Conserved(s)
    ensures Conserved(s.(workers := s.workers + [Idle]))
  {
    AddIdle(s.workers);
  }

  lemma CountStep(s: State, w: nat, m: Message)
    requires w < |s.workers| && s.workers[w].Idle? && Conserved(s)
    ensures Conserved(DoCount(s, w, m))
  {
    SetWorker(s.workers, w, Counted(m));
  }

  lemma ClassifyStep(s: State, w: nat)
    requires w < |s.workers| && s.workers[w].Counted? && Conserved(s)
    ensures Conserved(DoClassify(s, w))
  {
    SetWorker(s.workers, w, Classified(s.workers[w].m));
  }

  lemma TallyStep(s: State, w: nat)
    requires w < |s.workers| && s.workers[w].Classified? && Conserved(s)
    ensures Conserved(DoTally(s, w))
  {
    var m := s.workers[w].m;
    SetWorker(s.workers, w, Tallied(m));
    TotalUpdate(s.counters.methods, m.method_, Get(s.counters.methods, m.method_) + 1);
  }

  lemma SendStep(s: State, w: nat, parse: Parser)
    requires w < |s.workers| && s.workers[w].Tallied? && Conserved(s) && InOrder(s, parse) && |s.queue| <= CHANNEL_CAPACITY
    ensures var t := DoSend(s, w); Conserved(t) && InOrder(t, parse) && |t.queue| <= CHANNEL_CAPACITY && SameWriterSide(s, t)
  {
    hide Strings, CommittedRows, RowsIn, Total;
    SetWorker(s.workers, w, Idle);
    var rec := s.workers[w].m.record;
    assert Strings(s.flushes) + Pending(s) + (s.queue + [rec]) == Strings(s.flushes) + Pending(s) + s.queue + [rec];
  }

  lemma ReceiveStep(s: State, parse: Parser)
    requires s.writer.Selecting? && s.queue != [] && Bounded(s) && Conserved(s) && InOrder(s, parse)
    ensures var t := DoReceive(s); Bounded(t) && FlushOk(t, parse) && Conserved(t) && InOrder(t, parse)
  {
    var x := s.queue[0];
    assert Strings(s.flushes) + s.batch + s.queue == Strings(s.flushes) + (s.batch + [x]) + s.queue[1..];
    assert (s.batch + [x])[..0] == [];
  }

  lemma FlushStep(s: State, stopping: bool, parse: Parser)
    requires s.writer.Selecting? && Bounded(s) && Conserved(s) && InOrder(s, parse)
    ensures var t := StartFlush(s, stopping); Bounded(t) && FlushOk(t, parse) && Conserved(t) && InOrder(t, parse)
  {
    assert s.batch[..0] == [];
  }

  lemma ParseStep(s: State, parse: Parser)
    requires s.writer.Parsing? && Bounded(s) && FlushOk(s, parse) && Conserved(s) && InOrder(s, parse)
    ensures var t := DoParse(s, parse); Bounded(t) && FlushOk(t, parse) && Conserved(t) && InOrder(t, parse)
  {
    hide Strings, CommittedRows, RowsIn, InFlight, Unclassified, Untallied, Total;
    var i := s.writer.next;
    ParsedLength(s.batch[..i], parse);
    if i < |s.batch| {
      assert s.batch[..i + 1][..i] == s.batch[..i];
    } else {
      assert s.batch[..i] == s.batch;
    }
  }

  /** What is inserted does not depend on the captures that are there. */
  lemma {:induction false} InsertsAlike(t: Tables, log: seq<Stored>, recs: seq<CaptureRecord>, raws: seq<string>)
    ensures
      var u, v := InsertAll(t, recs, raws), InsertAll(Full(t, log), recs, raws);
      && v == Full(u, v.captures)
      && ((forall x :: x in t.captures ==> x in log) ==> forall x :: x in u.captures ==> x in v.captures)
  {
    hide Touch, Roll;
    if recs != [] {
      InsertsAlike(t, log, recs[..|recs| - 1], raws);
    }
  }

  lemma InsertKeepsStanding(t: Tables, log: seq<Stored>, recs: seq<CaptureRecord>, raws: seq<string>)
    requires Stands(t, log)
    ensures Stands(InsertAll(t, recs, raws), InsertAll(Full(t, log), recs, raws).captures)
  {
    hide InsertAll, IdsInOrder, RollupMatches;
    InsertsAlike(t, log, recs, raws);
    WriteKeepsTables(t, recs, raws);
    WriteKeepsTables(Full(t, log), recs, raws);
  }

  lemma RiseSnoc(captures: seq<Stored>, x: Stored, limit: nat)
    requires IdsRise(captures, limit) && 0 < x.id < limit && forall y :: y in captures ==> y.id < x.id
    ensures IdsRise(captures + [x], limit)
  {
  }

  lemma {:induction false} RemainingRises(captures: seq<Stored>, limit: nat, keep: Stored -> bool)
    requires IdsRise(captures, limit)
    ensures IdsRise(Remaining(captures, keep), limit)
  {
    if captures != [] {
      var n := |captures| - 1;
      RemainingRises(captures[..n], limit, keep);
      var r := Remaining(captures[..n], keep);
      if keep(captures[n]) {
        RiseSnoc(r, captures[n], limit);
      } else {
        assert r + [] == r;
      }
    }
  }

  lemma BurnKeepsStanding(t: Tables, log: seq<Stored>, burned: nat)
    requires Stands(t, log)
    ensures Stands(t.(nextId := t.nextId + burned), log)
  {
  }

  lemma DeleteKeepsStanding(t: Tables, log: seq<Stored>, what: Deletion)
    requires Stands(t, log)
    ensures Stands(DeleteFrom(t, what), log)
  {
    hide RollAll, IdsRise;
    match what
    case CapturesOf(callId) => RemainingRises(t.captures, t.nextId, (x: Stored) => x.rec.callId != callId);
    case CapturesBefore(ms) => RemainingRises(t.captures, t.nextId, (x: Stored) => x.rec.tsMs >= ms);
    case _ =>
  }

  lemma FlushSnoc(fs: seq<Flush>, f: Flush, parse: Parser)
    ensures Strings(fs + [f]) == Strings(fs) + f.batch
    ensures CommittedRows(fs + [f], parse) ==
      CommittedRows(fs, parse) + if f.committed then Pair(Parsed(f.batch, parse), f.batch) else []
  {
    assert (fs + [f])[..|fs|] == fs;
  }

  lemma WriteStep(s: State, committed: bool, burned: nat, parse: Parser)
    requires s.writer.Inserting? && FlushOk(s, parse) && InOrder(s, parse)
    ensures InOrder(DoWrite(s, committed, burned), parse)
  {
    hide InsertAll, Parsed, Pair, Strings, CommittedRows, RowsIn;
    FlushSnoc(s.flushes, Flush(s.batch, committed), parse);
    var rows := if committed then Pair(s.writer.recs, s.batch) else [];
    if committed {
      WriteKeepsTables(Full(s.tables, s.log), s.writer.recs, s.batch);
    }
    assert s.rows0 + CommittedRows(s.flushes, parse) + rows == s.rows0 + (CommittedRows(s.flushes, parse) + rows);
    assert Strings(s.flushes) + s.batch + [] + s.queue == Strings(s.flushes) + s.batch + s.queue;
  }

  lemma WriteStepTables(s: State, committed: bool, burned: nat)
    requires s.writer.Inserting? && OkCountsRows(s) && Stands(s.tables, s.log)
    ensures var t := DoWrite(s, committed, burned); OkCountsRows(t) && Stands(t.tables, t.log)
  {
    hide InsertAll, Stands, RollupMatches, IdsInOrder;
    if committed {
      WriteKeepsTables(Full(s.tables, s.log), s.writer.recs, s.batch);
      InsertKeepsStanding(s.tables, s.log, s.writer.recs, s.batch);
    } else {
      BurnKeepsStanding(s.tables, s.log, burned);
    }
  }

  lemma AccountStep(s: State, parse: Parser)
    requires s.writer.Accounting? && Bounded(s) && Conserved(s) && InOrder(s, parse) && OkCountsRows(s)
    ensures var t := DoAccount(s); Bounded(t) && Conserved(t) && InOrder(t, parse) && OkCountsRows(t)
  {
    assert Strings(s.flushes) + [] + s.queue == Strings(s.flushes) + Pending(s) + s.queue;
  }

  lemma {:induction false} RowsInAppend(t: Tables, rows: seq<Row>)
    ensures RowsIn(InsertRows(t, rows).captures) == RowsIn(t.captures) + rows
  {
    hide Upsert, Touch;
    if rows != [] {
      var n := |rows| - 1;
      RowsInAppend(t, rows[..n]);
      var before := InsertRows(t, rows[..n]).captures;
      var x := Stored(rows[n].0, InsertRows(t, rows[..n]).nextId, rows[n].1);
      assert InsertRows(t, rows).captures == before + [x];
      assert (before + [x])[..|before|] == before;
      assert rows == rows[..n] + [rows[n]];
    }
  }

  lemma WriteKeepsTables(t: Tables, recs: seq<CaptureRecord>, raws: seq<string>)
    ensures
      var u := InsertAll(t, recs, raws);
      && RowsIn(u.captures) == RowsIn(t.captures) + Pair(recs, raws)
      && |u.captures| == |t.captures| + |recs|
      && (RollupMatches(t) ==> RollupMatches(u)) && (IdsInOrder(t) ==> IdsInOrder(u))
  {
    InsertAllIsRows(t, recs, raws);
    InsertRowsKeeps(t, Pair(recs, raws));
    RowsInAppend(t, Pair(recs, raws));
  }

  predicate WorkerStep(step: Step) {
    step.Spawn? || step.Count? || step.Classify? || step.TallyMethod? || step.Send?
  }

  lemma WorkerKeepsInv(s: State, step: Step, parse: Parser)
    requires WorkerStep(step) && Enabled(s, step) && Inv(s, parse)
    ensures Inv(Next(s, step, parse), parse)
  {
    hide Conserved, Stands, CommittedRows, Strings, RowsIn;
    match step
    case Spawn => SpawnStep(s);
    case Count(w, m) => CountStep(s, w, m);
    case Classify(w) => ClassifyStep(s, w);
    case TallyMethod(w) => TallyStep(s, w);
    case Send(w) => SendStep(s, w, parse);
    var t := Next(s, step, parse);
    assert SameWriterSide(s, t);
    assert FlushOk(t, parse) && OkCountsRows(t) && Bounded(t);
  }

  lemma BatchKeepsInv(s: State, step: Step, parse: Parser)
    requires step.Receive? || step.Tick? || step.Cancel? || step.ParseNext?
    requires Enabled(s, step) && Inv(s, parse)
    ensures Inv(Next(s, step, parse), parse)
  {
    hide Conserved, InOrder, Stands;
    match step
    case Receive => ReceiveStep(s, parse);
    case Tick => FlushStep(s, false, parse);
    case Cancel => FlushStep(s, true, parse);
    case ParseNext => ParseStep(s, parse);
    var t := Next(s, step, parse);
    assert t.tables == s.tables && t.log == s.log && t.counters.dbOk == s.counters.dbOk && OkCountsRows(t);
  }

  lemma StepKeepsInv(s: State, step: Step, parse: Parser)
    requires Enabled(s, step) && Inv(s, parse)
    ensures Inv(Next(s, step, parse), parse)
  {
    hide RowsIn, Strings, CommittedRows, InFlight, Unclassified, Untallied, Total, Stands, InsertAll, Parsed, DeleteFrom;
    if WorkerStep(step) {
      WorkerKeepsInv(s, step, parse);
    } else {
      match step
      case Retention(cutoffMs) => DeleteKeepsStanding(s.tables, s.log, CallsBefore(cutoffMs));
      case Delete(what) => DeleteKeepsStanding(s.tables, s.log, what);
      case Write(committed, burned) =>
        WriteStep(s, committed, burned, parse);
        WriteStepTables(s, committed, burned);
      case Account => AccountStep(s, parse);
      case _ => BatchKeepsInv(s, step, parse);
    }
  }

  // ----- runs -----

  /** `t` is reachable from `s` by the given steps. */
  ghost predicate Run(s: State, steps: seq<Step>, t: State, parse: Parser)
    decreases |steps|
  {
    if steps == [] then s == t
    else
      && Enabled(s, steps[0])
      && (s.writer.Parsing? ==> s.writer.next <= |s.batch|)
      && Run(Next(s, steps[0], parse), steps[1..], t, parse)
  }

  lemma {:induction false} RunKeepsInv(s: State, steps: seq<Step>, t: State, parse: Parser)
    requires Run(s, steps, t, parse) && Inv(s, parse)
    ensures Inv(t, parse)
    decreases |steps|
  {
    if steps != [] {
      StepKeepsInv(s, steps[0], parse);
      RunKeepsInv(Next(s, steps[0], parse), steps[1..], t, parse);
    }
  }

  /**
   In every reachable state of every interleaving, whatever the database held at the start: conservation, bounds, order,
   and tables that agree.
   */
  lemma {:induction false} EveryRun(d: Tables, log: seq<Stored>, steps: seq<Step>, t: State, parse: Parser)
    requires Stands(d, log) && Run(Begin(d, log), steps, t, parse)
    ensures Inv(t, parse)
  {
    BeginInv(d, log, parse);
    RunKeepsInv(Begin(d, log), steps, t, parse);
  }

  /** Wherever a process stops or is killed, the next one finds a database it can begin on. */
  lemma {:induction false} EveryRunCanGoOn(d: Tables, log: seq<Stored>, steps: seq<Step>, t: State, parse: Parser)
    requires Stands(d, log) && Run(Begin(d, log), steps, t, parse)
    ensures Inv(Begin(t.tables, t.log), parse)
  {
    EveryRun(d, log, steps, t, parse);
    BeginInv(t.tables, t.log, parse);
  }

  lemma {:induction false} InsertAllGrows(t: Tables, recs: seq<CaptureRecord>, raws: seq<string>)
    ensures t.captures <= InsertAll(t, recs, raws).captures
  {
    hide Touch, Roll;
    if recs != [] {
      InsertAllGrows(t, recs[..|recs| - 1], raws);
    }
  }

  lemma StepLog(s: State, step: Step, parse: Parser)
    requires Enabled(s, step) && (s.writer.Parsing? ==> s.writer.next <= |s.batch|)
    ensures s.log <= Next(s, step, parse).log && Next(s, step, parse).rows0 == s.rows0
  {
    hide InsertAll, DeleteFrom;
    if step.Write? {
      InsertAllGrows(Full(s.tables, s.log), s.writer.recs, s.batch);
    } else {
      assert Next(s, step, parse).log == s.log;
    }
  }

  /** The log only grows, and what it held at the start stays what it was. */
  lemma {:induction false} LogGrows(s: State, steps: seq<Step>, t: State, parse: Parser)
    requires Run(s, steps, t, parse)
    ensures s.log <= t.log && t.rows0 == s.rows0
    decreases |steps|
  {
    hide Next, Enabled;
    if steps != [] {
      StepLog(s, steps[0], parse);
      LogGrows(Next(s, steps[0], parse), steps[1..], t, parse);
    }
  }

  lemma {:induction false} RowsInAt(captures: seq<Stored>)
    ensures forall i :: 0 <= i < |captures| ==> RowsIn(captures)[i] == (captures[i].rec, captures[i].recordJson)
  {
    if captures != [] {
      RowsInAt(captures[..|captures| - 1]);
    }
  }

  // ----- deletions -----

  predicate DeletesNoCaptures(steps: seq<Step>) {
    forall step :: step in steps ==> !(step.Delete? && (step.what.CapturesOf? || step.what.CapturesBefore?))
  }

  /** Without a delete request for captures the table holds all that was ever stored. */
  lemma {:induction false} NothingDeleted(s: State, steps: seq<Step>, t: State, parse: Parser)
    requires Run(s, steps, t, parse) && DeletesNoCaptures(steps) && s.tables.captures == s.log
    ensures t.tables.captures == t.log
    decreases |steps|
  {
    if steps != [] {
      assert steps[0] in steps;
      assert s.tables == Full(s.tables, s.log);
      NothingDeleted(Next(s, steps[0], parse), steps[1..], t, parse);
    }
  }

  // ----- what a run does to the channel and the counters, step by step -----

  /** The condition under which a step can be taken at all. */
  predicate Takes(s: State, step: Step) {
    Enabled(s, step) && (s.writer.Parsing? ==> s.writer.next <= |s.batch|)
  }

  /** How many messages are sent on the run into a channel that holds 4096 strings. */
  ghost function SendsIntoFull(s: State, steps: seq<Step>, t: State, parse: Parser): nat
    requires Run(s, steps, t, parse)
    decreases |steps|
  {
    if steps == [] then 0
    else
      (if steps[0].Send? && |s.queue| == 4096 then 1 else 0)
      + SendsIntoFull(Next(s, steps[0], parse), steps[1..], t, parse)
  }

  /** The records sent on the run, in order, but for those sent into a channel that holds 4096 strings. */
  ghost function SentWithRoom(s: State, steps: seq<Step>, t: State, parse: Parser): seq<string>
    requires Run(s, steps, t, parse)
    decreases |steps|
  {
    if steps == [] then []
    else
      (if steps[0].Send? && |s.queue| != 4096 then [s.workers[steps[0].w].m.record] else [])
      + SentWithRoom(Next(s, steps[0], parse), steps[1..], t, parse)
  }

  lemma OneSend(s: State, step: Step, parse: Parser)
    requires Takes(s, step) && |s.queue| <= 4096
    ensures
      var t := Next(s, step, parse);
      && |t.queue| <= 4096
      && t.counters.dbDrop == s.counters.dbDrop + (if step.Send? && |s.queue| == 4096 then 1 else 0)
      && t.sent == s.sent + if step.Send? && |s.queue| != 4096 then [s.workers[step.w].m.record] else []
  {
    hide InsertAll, DeleteFrom;
  }

  /**
   A record is dropped exactly when it is sent into a full channel of 4096; every other record sent is queued, in order.
   */
  lemma {:induction false} DropsAreFull(s: State, steps: seq<Step>, t: State, parse: Parser)
    requires Run(s, steps, t, parse) && |s.queue| <= 4096
    ensures t.counters.dbDrop == s.counters.dbDrop + SendsIntoFull(s, steps, t, parse)
    ensures t.sent == s.sent + SentWithRoom(s, steps, t, parse)
    ensures |t.queue| <= 4096
    decreases |steps|
  {
    hide Next, Enabled;
    if steps != [] {
      OneSend(s, steps[0], parse);
      DropsAreFull(Next(s, steps[0], parse), steps[1..], t, parse);
    }
  }

  /** Never is a message sent into a full channel. */
  ghost predicate NeverFull(s: State, steps: seq<Step>, t: State, parse: Parser)
    requires Run(s, steps, t, parse)
  {
    SendsIntoFull(s, steps, t, parse) == 0
  }

  /** The records of all messages sent on the run, in order. */
  ghost function AllSends(s: State, steps: seq<Step>, t: State, parse: Parser): seq<string>
    requires Run(s, steps, t, parse)
    decreases |steps|
  {
    if steps == [] then []
    else
      (if steps[0].Send? then [s.workers[steps[0].w].m.record] else [])
      + AllSends(Next(s, steps[0], parse), steps[1..], t, parse)
  }

  lemma {:induction false} RoomForAll(s: State, steps: seq<Step>, t: State, parse: Parser)
    requires Run(s, steps, t, parse) && NeverFull(s, steps, t, parse)
    ensures SentWithRoom(s, steps, t, parse) == AllSends(s, steps, t, parse)
    decreases |steps|
  {
    hide Next;
    if steps != [] {
      RoomForAll(Next(s, steps[0], parse), steps[1..], t, parse);
    }
  }

  /** Where the channel always has room nothing is dropped and every record sent is queued, in order. */
  lemma {:induction false} NothingDropped(s: State, steps: seq<Step>, t: State, parse: Parser)
    requires Run(s, steps, t, parse) && |s.queue| <= 4096 && NeverFull(s, steps, t, parse)
    ensures t.counters.dbDrop == s.counters.dbDrop && t.sent == s.sent + AllSends(s, steps, t, parse)
  {
    DropsAreFull(s, steps, t, parse);
    RoomForAll(s, steps, t, parse);
  }

  /** How many steps of the run, each looked at in the state it is taken in, are `hit`. */
  ghost function Steps(s: State, steps: seq<Step>, t: State, parse: Parser, hit: (State, Step) -> bool): nat
    requires Run(s, steps, t, parse)
    decreases |steps|
  {
    if steps == [] then 0
    else (if hit(s, steps[0]) then 1 else 0) + Steps(Next(s, steps[0], parse), steps[1..], t, parse, hit)
  }

  predicate Counts(s: State, step: Step) { step.Count? }

  predicate ClassifiesRequest(s: State, step: Step) {
    step.Classify? && step.w < |s.workers| && s.workers[step.w].Counted? && s.workers[step.w].m.isRequest
  }

  predicate ClassifiesResponse(s: State, step: Step) {
    step.Classify? && step.w < |s.workers| && s.workers[step.w].Counted? && !s.workers[step.w].m.isRequest
  }

  predicate TalliesMethod(s: State, step: Step, k: string) {
    step.TallyMethod? && step.w < |s.workers| && s.workers[step.w].Classified? && s.workers[step.w].m.method_ == k
  }

  lemma OneCount(s: State, step: Step, parse: Parser, k: string)
    requires Takes(s, step)
    ensures
      var c, d := s.counters, Next(s, step, parse).counters;
      && d.msgsTotal == c.msgsTotal + Bit(Counts(s, step))
      && d.requests == c.requests + Bit(ClassifiesRequest(s, step))
      && d.responses == c.responses + Bit(ClassifiesResponse(s, step))
      && Get(d.methods, k) == Get(c.methods, k) + Bit(TalliesMethod(s, step, k))
  {
    hide InsertAll, DeleteFrom;
  }

  /** Each counter of a run counts the messages it is named for: all, requests, responses, and those of one method. */
  lemma {:induction false} CountersOfRun(
    s: State, steps: seq<Step>, t: State, parse: Parser, k: string, tallies: (State, Step) -> bool)
    requires Run(s, steps, t, parse) && forall u, step :: tallies(u, step) == TalliesMethod(u, step, k)
    ensures
      var c, d := s.counters, t.counters;
      && d.msgsTotal == c.msgsTotal + Steps(s, steps, t, parse, Counts)
      && d.requests == c.requests + Steps(s, steps, t, parse, ClassifiesRequest)
      && d.responses == c.responses + Steps(s, steps, t, parse, ClassifiesResponse)
      && Get(d.methods, k) == Get(c.methods, k) + Steps(s, steps, t, parse, tallies)
    decreases |steps|
  {
    hide Next, Enabled, Counts, ClassifiesRequest, ClassifiesResponse, TalliesMethod;
    if steps != [] {
      OneCount(s, steps[0], parse, k);
      CountersOfRun(Next(s, steps[0], parse), steps[1..], t, parse, k, tallies);
    }
  }

  /** A flush begins at the hundredth string of a batch, at a tick with something batched, and before the writer stops. */
  lemma FlushBegins(s: State, step: Step, parse: Parser)
    requires Takes(s, step) && s.writer.Selecting? && |s.batch| < 100
    ensures
      var w := Next(s, step, parse).writer;
      && (step.Receive? ==> w == if |s.batch| == 99 then Parsing(0, [], false) else Selecting)
      && (step.Tick? ==> w == if s.batch != [] then Parsing(0, [], false) else Selecting)
      && (step.Cancel? ==> w == if s.batch != [] then Parsing(0, [], true) else Stopped)
  {
  }

  /** A flush goes through its steps and ends with the writer waiting again, or stopped when it was begun to stop. */
  lemma FlushEnds(s: State, step: Step, parse: Parser)
    requires Takes(s, step) && (s.writer.Parsing? || s.writer.Inserting? || s.writer.Accounting?)
    ensures
      var w := Next(s, step, parse).writer;
      if step.Account? then
        w == (if s.writer.stopping then Stopped else Selecting) && Next(s, step, parse).batch == []
      else (w.Parsing? || w.Inserting? || w.Accounting?) && w.stopping == s.writer.stopping
  {
  }

  /** A worker never waits for the channel or the writer: whatever the queue holds, there is a step for it to take. */
  lemma WorkersNeverBlock(s: State, w: nat, m: Message)
    requires w < |s.workers|
    ensures match s.workers[w]
      case Idle => Enabled(s, Count(w, m))
      case Counted(_) => Enabled(s, Classify(w))
      case Classified(_) => Enabled(s, TallyMethod(w))
      case Tallied(_) => Enabled(s, Send(w))
  {
  }

  /** Nor does the writer: waiting it can take what is queued, tick or be cancelled, and inside a flush it can go on. */
  lemma WriterNeverBlocks(s: State, cutoffMs: int)
    ensures s.writer.Selecting? ==>
      && Enabled(s, Tick) && Enabled(s, Cancel) && Enabled(s, Retention(cutoffMs)) && (s.queue != [] ==> Enabled(s, Receive))
    ensures s.writer.Parsing? ==> Enabled(s, ParseNext)
    ensures s.writer.Inserting? ==> Enabled(s, Write(true, 0))
    ensures s.writer.Accounting? ==> Enabled(s, Account)
  {
  }

  lemma {:induction false} RemainingExactly(captures: seq<Stored>, keep: Stored -> bool)
    ensures forall x :: x in Remaining(captures, keep) <==> x in captures && keep(x)
  {
    if captures != [] {
      var n := |captures| - 1;
      RemainingExactly(captures[..n], keep);
      assert captures == captures[..n] + [captures[n]];
    }
  }

  /** A delete request takes away exactly the rows it names, and nothing from the rollup. */
  lemma DeletesExactly(t: Tables, what: Deletion)
    ensures
      var u := DeleteFrom(t, what);
      && u.daily == t.daily && u.nextId == t.nextId
      && (forall x ::
            x in u.captures <==>
            (x in t.captures
             && (what.CapturesOf? ==> x.rec.callId != what.callId) && (what.CapturesBefore? ==> x.rec.tsMs >= what.ms)))
      && (forall k ::
            k in u.calls <==>
            (k in t.calls
             && (what.CallsOf? ==> k.0 != what.callId) && (what.CallsBefore? ==> t.calls[k].lastTsMs >= what.ms)))
      && (forall k :: k in u.calls ==> u.calls[k] == t.calls[k])
  {
    match what
    case CapturesOf(callId) => RemainingExactly(t.captures, (x: Stored) => x.rec.callId != callId);
    case CapturesBefore(ms) => RemainingExactly(t.captures, (x: Stored) => x.rec.tsMs >= ms);
    case _ =>
  }
}
