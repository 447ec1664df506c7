/** The database writer's own loop (core-go/db.go): select, batch, flush. */
module Writer {
  import opened Text
  import opened CallState
  import opened Database
  import opened DatabaseLaws
  import opened Pipeline
  import opened PipelineSafety

  /** What one turn of the select sees. */
  datatype Event = Received(text: string) | FlushTick | RetentionTick(cutoffMs: int) | PartitionTick | Cancelled

  /** The strings taken from the channel before the context is cancelled. */
  function Taken(events: seq<Event>): seq<string> {
    if events == [] || events[0].Cancelled? then []
    else (if events[0].Received? then [events[0].text] else []) + Taken(events[1..])
  }

  lemma {:induction false} LogFlush(t: Tables, u: Tables, rows0: seq<Row>, before: seq<Flush>, f: Flush, parse: Parser)
    requires RowsIn(t.captures) == rows0 + CommittedRows(before, parse)
    requires if f.committed then u == InsertAll(t, Parsed(f.batch, parse), f.batch) else u.captures == t.captures
    ensures RowsIn(u.captures) == rows0 + CommittedRows(before + [f], parse)
    ensures Strings(before + [f]) == Strings(before) + f.batch
  {
    hide Parsed, Pair, InsertAll, Strings, CommittedRows, RowsIn;
    FlushSnoc(before, f, parse);
    var more := Pair(Parsed(f.batch, parse), f.batch);
    if f.committed {
      WriteKeepsTables(t, Parsed(f.batch, parse), f.batch);
      assert rows0 + CommittedRows(before, parse) + more == rows0 + (CommittedRows(before, parse) + more);
    }
  }

  /** How many events are handled: all up to the one that cancels. */
  function Handled(events: seq<Event>): nat {
    if events == [] then 0 else if events[0].Cancelled? then 1 else 1 + Handled(events[1..])
  }

  predicate Ends(events: seq<Event>) {
    events != [] && (events[0].Cancelled? || Ends(events[1..]))
  }

  // ----- what the turns do to the tables -----

  /**
   One turn: retention removes exactly the calls last seen before the cutoff and touches nothing else; any other turn
   leaves the tables alone or writes one batch.
   */
  ghost predicate Turned(t: Tables, u: Tables, e: Event, parse: Parser) {
    if e.RetentionTick? then
      && u == t.(calls := u.calls)
      && (forall k :: k in u.calls <==> (k in t.calls && t.calls[k].lastTsMs >= e.cutoffMs))
      && (forall k :: k in u.calls ==> u.calls[k] == t.calls[k])
    else u == t || (!e.PartitionTick? && Wrote(t, u, parse))
  }

  /** One batch is written whole, or not at all but for the ids it used up. */
  ghost predicate Wrote(t: Tables, u: Tables, parse: Parser) {
    (exists batch :: u == InsertAll(t, Parsed(batch, parse), batch)) || u == t.(nextId := u.nextId)
  }

  /** The tables before the first event and after each of the events handled. */
  ghost predicate History(hist: seq<Tables>, events: seq<Event>, parse: Parser) {
    && 1 <= |hist| <= |events| + 1
    && forall i :: 0 <= i < |hist| - 1 ==> Turned(hist[i], hist[i + 1], events[i], parse)
  }

  lemma {:induction false} HistorySnoc(hist: seq<Tables>, u: Tables, events: seq<Event>, parse: Parser)
    requires History(hist, events, parse) && |hist| <= |events|
    requires Turned(hist[|hist| - 1], u, events[|hist| - 1], parse)
    ensures History(hist + [u], events, parse)
  {
    hide Turned;
  }

  /** A tick that removes the row of `k`. */
  predicate TickRemoves(t: Tables, e: Event, k: Key) {
    e.RetentionTick? && k in t.calls && t.calls[k].lastTsMs < e.cutoffMs
  }

  /** The number of captures stored when a tick last removed the row of `k`, or `n` if none did. */
  ghost function LastTick(hist: seq<Tables>, events: seq<Event>, k: Key, n: nat): nat
    requires 1 <= |hist| <= |events| + 1
  {
    if |hist| == 1 then n
    else
      var i := |hist| - 2;
      if TickRemoves(hist[i], events[i], k) then |hist[i].captures| else LastTick(hist[..i + 1], events, k, n)
  }

  lemma {:induction false} TurnedSince(t: Tables, u: Tables, e: Event, parse: Parser, k: Key, n: nat)
    requires Turned(t, u, e, parse) && SummedSince(t, k, n)
    ensures SummedSince(u, k, if TickRemoves(t, e, k) then |t.captures| else n)
  {
    hide OfCall, Summary, InsertAll, Parsed;
    if e.RetentionTick? {
      assert t.captures[|t.captures|..] == [];
      OfCallNone(k);
    } else if batch :| u == InsertAll(t, Parsed(batch, parse), batch) {
      BatchSince(t, Parsed(batch, parse), batch, k, n);
    }
  }

  /**
   Whatever the events: the row of a call is the summary of its captures stored since a tick last removed it, which is a
   tick with a cutoff above the row's last time; and the rollup stays that of the captures.
   */
  lemma {:induction false} HistoryTells(hist: seq<Tables>, events: seq<Event>, parse: Parser, k: Key, n: nat)
    requires History(hist, events, parse) && SummedSince(hist[0], k, n)
    ensures SummedSince(hist[|hist| - 1], k, LastTick(hist, events, k, n))
    decreases |hist|
  {
    hide Turned, SummedSince, TickRemoves;
    if |hist| > 1 {
      var i := |hist| - 2;
      HistoryTells(hist[..i + 1], events, parse, k, n);
      TurnedSince(hist[i], hist[i + 1], events[i], parse, k, LastTick(hist[..i + 1], events, k, n));
    }
  }

  lemma TurnedRollup(t: Tables, u: Tables, e: Event, parse: Parser)
    requires Turned(t, u, e, parse) && RollupMatches(t)
    ensures RollupMatches(u)
  {
    hide InsertAll, Parsed, RollAll;
    if e.RetentionTick? || u == t {
    } else if batch :| u == InsertAll(t, Parsed(batch, parse), batch) {
      WriteKeepsTables(t, Parsed(batch, parse), batch);
    }
  }

  lemma {:induction false} HistoryRollup(hist: seq<Tables>, events: seq<Event>, parse: Parser)
    requires History(hist, events, parse) && RollupMatches(hist[0])
    ensures RollupMatches(hist[|hist| - 1])
    decreases |hist|
  {
    hide Turned, RollupMatches;
    if |hist| > 1 {
      var i := |hist| - 2;
      HistoryRollup(hist[..i + 1], events, parse);
      TurnedRollup(hist[i], hist[i + 1], events[i], parse);
    }
  }

  class DbWriter {
    const db: Db
    var batch: seq<string>
    var dbOk: nat
    var dbErr: nat

    constructor (db: Db)
      ensures this.db == db && batch == [] && dbOk == 0 && dbErr == 0
    {
      this.db := db;
      batch, dbOk, dbErr := [], 0, 0;
    }

    /** Parses the batch, inserts what parses in one transaction, counts the outcome and empties the batch. */
    method Flush(parse: Parser, stmtOk: nat -> bool) returns (ghost f: Flush)
      modifies this, db
      ensures f.batch == old(batch) && batch == []
      ensures f.committed ==>
        && db.tables == InsertAll(old(db.tables), Parsed(old(batch), parse), old(batch))
        && dbOk == old(dbOk) + |Parsed(old(batch), parse)|
      ensures !f.committed ==> db.tables == old(db.tables).(nextId := db.tables.nextId) && dbOk == old(dbOk)
      ensures dbOk + dbErr == old(dbOk) + old(dbErr) + |old(batch)|
      ensures (forall k :: stmtOk(k)) ==> f.committed
    {
      f := Pipeline.Flush(batch, true);
      if |batch| == 0 {
        return;
      }
      var recs: seq<CaptureRecord> := [];
      for i := 0 to |batch|
        invariant batch == old(batch) && dbOk == old(dbOk) && db.tables == old(db.tables)
        invariant recs == Parsed(batch[..i], parse)
        invariant dbErr == old(dbErr) + i - |recs|
      {
        Prefix(batch, i);
        assert batch[..i + 1][..i] == batch[..i];
        match parse(batch[i])
        case None => dbErr := dbErr + 1;
        case Some(rec) => recs := recs + [rec];
      }
      assert batch[..|batch|] == batch;
      var ok := db.DbBatchInsert(recs, batch, stmtOk);
      f := Pipeline.Flush(batch, ok);
      if ok {
        dbOk := dbOk + |recs|;
      } else {
        dbErr := dbErr + |recs|;
      }
      batch := [];
    }

    /** `taken` strings are flushed or batched in order, flushed ones are counted, committed ones are in the table. */
    ghost predicate Logged(taken: seq<string>, flushes: seq<Flush>, parse: Parser, rows0: seq<Row>, count0: nat)
      reads this, db
    {
      && taken == Strings(flushes) + batch
      && RowsIn(db.tables.captures) == rows0 + CommittedRows(flushes, parse)
      && dbOk + dbErr == count0 + |Strings(flushes)|
    }

    method FlushLogged(
      parse: Parser, stmtOk: nat -> bool, ghost taken: seq<string>, ghost before: seq<Flush>, ghost rows0: seq<Row>, ghost count0: nat)
      returns (ghost flushes: seq<Flush>)
      requires Logged(taken, before, parse, rows0, count0)
      modifies this, db
      ensures batch == [] && Logged(taken, flushes, parse, rows0, count0)
      ensures Wrote(old(db.tables), db.tables, parse)
    {
      ghost var f := Flush(parse, stmtOk);
      flushes := before + [f];
      LogFlush(old(db.tables), db.tables, rows0, before, f, parse);
    }

    /** One turn of the select. */
    method Turn(
      e: Event, parse: Parser, stmtOk: nat -> bool, ghost taken: seq<string>, ghost before: seq<Flush>, ghost rows0: seq<Row>, ghost count0: nat)
      returns (ghost flushes: seq<Flush>)
      requires Logged(taken, before, parse, rows0, count0) && |batch| < BATCH_SIZE
      modifies this, db
      ensures |batch| < BATCH_SIZE && (e.Cancelled? || e.FlushTick? ==> batch == [])
      ensures Logged(if e.Received? then taken + [e.text] else taken, flushes, parse, rows0, count0)
      ensures Turned(old(db.tables), db.tables, e, parse)
    {
      flushes := before;
      match e
      case PartitionTick =>
      case RetentionTick(cutoffMs) =>
        db.tables := db.tables.(calls := Expire(db.tables.calls, cutoffMs));
      case Cancelled =>
        flushes := FlushLogged(parse, stmtOk, taken, before, rows0, count0);
      case FlushTick =>
        flushes := FlushLogged(parse, stmtOk, taken, before, rows0, count0);
      case Received(text) =>
        batch := batch + [text];
        assert taken + [text] == Strings(flushes) + batch;
        if |batch| >= BATCH_SIZE {
          flushes := FlushLogged(parse, stmtOk, taken + [text], before, rows0, count0);
        }
    }

    /**
     The writer loop over any sequence of events. Every string taken is in exactly one flush or still in the
     batch, in order; every flushed one is counted; the captures are those of the flushes that committed.
     */
    method Loop(events: seq<Event>, parse: Parser, stmtOk: nat -> nat -> bool)
      returns (ghost flushes: seq<Flush>, ghost hist: seq<Tables>)
      requires batch == []
      modifies this, db
      ensures |batch| < BATCH_SIZE && (Ends(events) ==> batch == [])
      ensures Logged(Taken(events), flushes, parse, RowsIn(old(db.tables.captures)), old(dbOk) + old(dbErr))
      ensures History(hist, events, parse) && hist[0] == old(db.tables) && hist[|hist| - 1] == db.tables
      ensures |hist| - 1 == Handled(events)
    {
      flushes, hist := [], [db.tables];
      ghost var taken: seq<string> := [];
      ghost var rows0, count0 := RowsIn(db.tables.captures), dbOk + dbErr;
      var i := 0;
      while i < |events|
        invariant TakenSoFar(events, i, taken)
        invariant |batch| < BATCH_SIZE && Logged(taken, flushes, parse, rows0, count0)
        invariant History(hist, events, parse) && |hist| == i + 1 && hist[0] == old(db.tables) && hist[i] == db.tables
        invariant Handled(events) == i + Handled(events[i..])
        decreases |events| - i
      {
        var e := events[i];
        TakeMore(events, i, taken);
        assert events[i..][1..] == events[i + 1..];
        flushes := Turn(e, parse, stmtOk(i), taken, flushes, rows0, count0);
        HistorySnoc(hist, db.tables, events, parse);
        hist := hist + [db.tables];
        if e.Cancelled? {
          return;
        }
        taken := if e.Received? then taken + [e.text] else taken;
        i := i + 1;
      }
      TakeMore(events, i, taken);
    }
  }

  /** The first `i` events did not cancel and brought in `taken`. */
  predicate TakenSoFar(events: seq<Event>, i: nat, taken: seq<string>) {
    i <= |events| && Taken(events) == taken + Taken(events[i..]) && Ends(events) == Ends(events[i..])
  }

  lemma TakeMore(events: seq<Event>, i: nat, taken: seq<string>)
    requires TakenSoFar(events, i, taken)
    ensures i == |events| ==> Taken(events) == taken && !Ends(events)
    ensures i < |events| && events[i].Cancelled? ==> Taken(events) == taken
    ensures i < |events| && !events[i].Cancelled? ==>
      TakenSoFar(events, i + 1, if events[i].Received? then taken + [events[i].text] else taken)
  {
    if i < |events| {
      assert events[i..][1..] == events[i + 1..];
      if events[i].Received? {
        var rest := Taken(events[i + 1..]);
        assert taken + ([events[i].text] + rest) == taken + [events[i].text] + rest;
      }
    }
  }
}
