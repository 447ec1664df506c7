/** What a call's row can and cannot do over a run of the pipeline. */
module PipelineSafety {
  import opened Text
  import opened CallState
  import opened Database
  import opened DatabaseLaws
  import opened Pipeline

  lemma {:induction false} BatchEvolves(t: Tables, recs: seq<CaptureRecord>, raws: seq<string>, k: Key)
    requires k in t.calls
    ensures
      var u := InsertAll(t, recs, raws);
      k in u.calls && Evolves(t.calls[k], u.calls[k])
    ensures (forall r :: r in recs ==> KeyOf(r) != k) ==> InsertAll(t, recs, raws).calls[k] == t.calls[k]
  {
    if recs != [] {
      BatchEvolves(t, recs[..|recs| - 1], raws, k);
      assert recs[|recs| - 1] in recs;
    }
  }

  /** A step that deletes the row of `k`: retention, or one of the two statements of a delete request for calls. */
  predicate Removes(s: State, step: Step, k: Key) {
    k in s.tables.calls &&
    match step
    case Retention(cutoffMs) => s.tables.calls[k].lastTsMs < cutoffMs
    case Delete(CallsBefore(ms)) => s.tables.calls[k].lastTsMs < ms
    case Delete(CallsOf(callId)) => k.0 == callId
    case _ => false
  }

  /** One step moves a row only forwards; it disappears exactly when retention or a delete request removes it. */
  lemma StepEvolves(s: State, step: Step, parse: Parser, k: Key)
    requires Enabled(s, step) && Inv(s, parse) && k in s.tables.calls
    ensures
      var calls := Next(s, step, parse).tables.calls;
      if Removes(s, step, k) then k !in calls else k in calls && Evolves(s.tables.calls[k], calls[k])
  {
    hide InsertAll, Conserved, InOrder, Stands;
    match step
    case Write(committed, burned) => BatchEvolves(s.tables, s.writer.recs, s.batch, k);
    case _ =>
  }

  /** The row of `k` is in the table after every step of the run. */
  ghost predicate Survives(s: State, steps: seq<Step>, parse: Parser, k: Key)
    decreases |steps|
  {
    && k in s.tables.calls
    && (steps != [] && Enabled(s, steps[0]) && (s.writer.Parsing? ==> s.writer.next <= |s.batch|)
        ==> Survives(Next(s, steps[0], parse), steps[1..], parse, k))
  }

  /** Over any run in which nothing removes it, a row only moves forwards. */
  lemma {:induction false} RunSafety(s: State, steps: seq<Step>, t: State, parse: Parser, k: Key)
    requires Run(s, steps, t, parse) && Inv(s, parse) && Survives(s, steps, parse, k)
    ensures k in t.tables.calls && Evolves(s.tables.calls[k], t.tables.calls[k])
    decreases |steps|
  {
    if steps != [] {
      var next := Next(s, steps[0], parse);
      StepEvolves(s, steps[0], parse, k);
      StepKeepsInv(s, steps[0], parse);
      RunSafety(next, steps[1..], t, parse, k);
    }
  }

  predicate KeepsCalls(steps: seq<Step>) {
    forall step :: step in steps ==>
      !step.Retention? && !(step.Delete? && (step.what.CallsOf? || step.what.CallsBefore?))
  }

  lemma {:induction false} KeepingSurvives(s: State, steps: seq<Step>, t: State, parse: Parser, k: Key)
    requires Run(s, steps, t, parse) && Inv(s, parse) && k in s.tables.calls && KeepsCalls(steps)
    ensures Survives(s, steps, parse, k)
    decreases |steps|
  {
    hide Evolves, Inv;
    if steps != [] {
      StepEvolves(s, steps[0], parse, k);
      StepKeepsInv(s, steps[0], parse);
      KeepingSurvives(Next(s, steps[0], parse), steps[1..], t, parse, k);
    }
  }

  // ----- the closed form, retention included -----

  /** The row of `k` is the summary of the call's captures from number `n` on, and is there exactly if there are any. */
  ghost predicate SummedSince(t: Tables, k: Key, n: nat) {
    && n <= |t.captures|
    && (k in t.calls <==> OfCall(t.captures[n..], k) != [])
    && (k in t.calls ==> t.calls[k] == Summary(OfCall(t.captures[n..], k)))
  }

  lemma TouchSince(calls: map<Key, CallRow>, rows: seq<Stored>, x: Stored, k: Key)
    requires k in calls <==> OfCall(rows, k) != []
    requires k in calls ==> calls[k] == Summary(OfCall(rows, k))
    ensures k in Touch(calls, x) <==> OfCall(rows + [x], k) != []
    ensures k in Touch(calls, x) ==> Touch(calls, x)[k] == Summary(OfCall(rows + [x], k))
  {
    hide Summary;
    assert (rows + [x])[..|rows|] == rows;
    var rs := OfCall(rows, k);
    if x.rec.callId != "" && KeyOf(x.rec) == k {
      if rs == [] {
        SummaryOne(x);
        assert rs + [x] == [x];
      } else {
        SummarySnoc(rs, x);
      }
    } else {
      assert rs + [] == rs;
    }
  }

  lemma {:induction false} InsertSince(t: Tables, r: CaptureRecord, recordJson: string, k: Key, n: nat)
    requires SummedSince(t, k, n)
    ensures SummedSince(Insert(t, r, recordJson), k, n)
  {
    hide OfCall, Summary, Touch, Roll;
    var x := Stored(r, t.nextId, recordJson);
    assert (t.captures + [x])[n..] == t.captures[n..] + [x];
    TouchSince(t.calls, t.captures[n..], x, k);
  }

  lemma {:induction false} BatchSince(t: Tables, recs: seq<CaptureRecord>, raws: seq<string>, k: Key, n: nat)
    requires SummedSince(t, k, n)
    ensures SummedSince(InsertAll(t, recs, raws), k, n)
  {
    if recs != [] {
      var i := |recs| - 1;
      BatchSince(t, recs[..i], raws, k, n);
      InsertSince(InsertAll(t, recs[..i], raws), recs[i], RawAt(raws, i), k, n);
    }
  }

  /** The number of captures stored when the row of `k` was last removed on the run, or `n` if it never was. */
  ghost function LastRemoval(s: State, steps: seq<Step>, t: State, parse: Parser, k: Key, n: nat): nat
    requires Run(s, steps, t, parse)
    decreases |steps|
  {
    if steps == [] then n
    else LastRemoval(Next(s, steps[0], parse), steps[1..], t, parse, k, AfterStep(s, steps[0], k, n))
  }

  function AfterStep(s: State, step: Step, k: Key, n: nat): nat {
    if Removes(s, step, k) then |s.log| else n
  }

  /** The row of `k` in a state tells of the captures ever stored from number `n` on. */
  ghost predicate RowSince(s: State, k: Key, n: nat) {
    SummedSince(Full(s.tables, s.log), k, n)
  }

  lemma {:induction false} DeleteSince(s: State, step: Step, what: Deletion, k: Key, n: nat)
    requires RowSince(s, k, n) && (step == Delete(what) || (step.Retention? && what == CallsBefore(step.cutoffMs)))
    ensures RowSince(s.(tables := DeleteFrom(s.tables, what)), k, AfterStep(s, step, k, n))
  {
    hide OfCall, Summary, Remaining;
    assert s.log[|s.log|..] == [];
    OfCallNone(k);
  }

  lemma OfCallNone(k: Key)
    ensures OfCall([], k) == []
  {
  }

  lemma {:induction false} WriteSince(s: State, committed: bool, burned: nat, k: Key, n: nat)
    requires s.writer.Inserting? && RowSince(s, k, n)
    ensures RowSince(DoWrite(s, committed, burned), k, n)
  {
    hide InsertAll, OfCall, Summary;
    BatchSince(Full(s.tables, s.log), s.writer.recs, s.batch, k, n);
    InsertsAlike(s.tables, s.log, s.writer.recs, s.batch);
  }

  lemma OtherTables(s: State, step: Step, parse: Parser)
    requires Enabled(s, step) && (s.writer.Parsing? ==> s.writer.next <= |s.batch|)
    requires !step.Write? && !step.Retention? && !step.Delete?
    ensures Next(s, step, parse).tables == s.tables && Next(s, step, parse).log == s.log
  {
  }

  lemma {:induction false} StepSince(s: State, step: Step, parse: Parser, k: Key, n: nat)
    requires Enabled(s, step) && (s.writer.Parsing? ==> s.writer.next <= |s.batch|) && RowSince(s, k, n)
    ensures RowSince(Next(s, step, parse), k, AfterStep(s, step, k, n))
  {
    hide SummedSince, DeleteFrom, InsertAll;
    match step
    case Write(committed, burned) => WriteSince(s, committed, burned, k, n);
    case Retention(cutoffMs) => DeleteSince(s, step, CallsBefore(cutoffMs), k, n);
    case Delete(what) => DeleteSince(s, step, what, k, n);
    case _ => OtherTables(s, step, parse);
  }

  lemma {:induction false} RunSince(s: State, steps: seq<Step>, t: State, parse: Parser, k: Key, n: nat)
    requires Run(s, steps, t, parse) && RowSince(s, k, n)
    ensures RowSince(t, k, LastRemoval(s, steps, t, parse, k, n))
    decreases |steps|
  {
    if steps != [] {
      StepSince(s, steps[0], parse, k, n);
      RunSince(Next(s, steps[0], parse), steps[1..], t, parse, k, AfterStep(s, steps[0], k, n));
    }
  }

  lemma NewSince(k: Key)
    ensures RowSince(START, k, 0)
  {
    assert NEW_TABLES.captures[0..] == [];
  }

  /** A database to begin on, and what the row of `k` on it tells of: the captures stored from number `n` on. */
  ghost predicate StandsSince(d: Tables, log: seq<Stored>, k: Key, n: nat) {
    Stands(d, log) && RowSince(Begin(d, log), k, n)
  }

  /** The captures stored since the row of `k` was last removed, by earlier processes too. */
  ghost function Recent(d: Tables, log: seq<Stored>, n: nat, steps: seq<Step>, t: State, parse: Parser, k: Key): seq<Stored>
    requires StandsSince(d, log, k, n) && Run(Begin(d, log), steps, t, parse)
  {
    RunSince(Begin(d, log), steps, t, parse, k, n);
    t.log[LastRemoval(Begin(d, log), steps, t, parse, k, n)..]
  }

  lemma {:induction false} SummaryOk(rows: seq<Stored>)
    requires rows != []
    ensures RowOk(Summary(rows))
  {
    var n := |rows| - 1;
    if n == 0 {
      SummaryOne(rows[0]);
      assert rows == [rows[0]];
    } else {
      SummaryOk(rows[..n]);
      SummarySnoc(rows[..n], rows[n]);
      assert rows == rows[..n] + [rows[n]];
      UpsertOk(Summary(rows[..n]), rows[n]);
    }
  }

  lemma UpsertOk(c: CallRow, x: Stored)
    requires RowOk(c)
    ensures RowOk(Upsert(Some(c), x))
  {
  }

  /**
   In every reachable state, whatever the database held at the start and whatever was deleted since, the row of a call is
   the summary of the captures of that call stored since its row was last removed, and it is there exactly if there are any.
   */
  lemma {:induction false} ReachableClosedForm(
    d: Tables, log: seq<Stored>, n: nat, steps: seq<Step>, t: State, parse: Parser, k: Key)
    requires StandsSince(d, log, k, n) && Run(Begin(d, log), steps, t, parse)
    ensures
      var rs := OfCall(Recent(d, log, n, steps, t, parse, k), k);
      && (k in t.tables.calls <==> rs != [])
      && (k in t.tables.calls ==> t.tables.calls[k] == Summary(rs) && RowOk(t.tables.calls[k]))
  {
    hide Run, Inv, Stands, Summary, OfCall, LastRemoval;
    RunSince(Begin(d, log), steps, t, parse, k, n);
    if k in t.tables.calls {
      SummaryOk(OfCall(Recent(d, log, n, steps, t, parse, k), k));
    }
  }

  /** So the next process, too, finds a row that tells of the captures since its last removal. */
  lemma {:induction false} NextProcess(d: Tables, log: seq<Stored>, n: nat, steps: seq<Step>, t: State, parse: Parser, k: Key)
    requires StandsSince(d, log, k, n) && Run(Begin(d, log), steps, t, parse)
    ensures StandsSince(t.tables, t.log, k, LastRemoval(Begin(d, log), steps, t, parse, k, n))
  {
    hide Run, SummedSince, LastRemoval;
    RunSince(Begin(d, log), steps, t, parse, k, n);
    EveryRun(d, log, steps, t, parse);
  }

  /** A call in the table is closed exactly if a BYE or CANCEL of it was stored since its row was last removed. */
  lemma {:induction false} ClosedSinceRemoval(
    d: Tables, log: seq<Stored>, n: nat, steps: seq<Step>, t: State, parse: Parser, k: Key)
    requires StandsSince(d, log, k, n) && Run(Begin(d, log), steps, t, parse) && k in t.tables.calls
    ensures
      var recent := Recent(d, log, n, steps, t, parse, k);
      && (t.tables.calls[k].open == 0 <==> exists x :: InCall(recent, k, x) && CloseRow(x))
      && (t.tables.calls[k].answered == 1 <==> exists x :: InCall(recent, k, x) && AnswerRow(x))
  {
    hide Run, LastRemoval, StandsSince;
    ReachableClosedForm(d, log, n, steps, t, parse, k);
    SummaryFlags(Recent(d, log, n, steps, t, parse, k), k);
  }

  /**
   In every reachable state with real timestamps a call's answer_ts is that of the first answer stored since its row was
   last removed, and its invite_id the id of the first INVITE request since then.
   */
  lemma {:induction false} SetOnceSinceRemoval(
    d: Tables, log: seq<Stored>, n: nat, steps: seq<Step>, t: State, parse: Parser, k: Key)
    requires StandsSince(d, log, k, n) && Run(Begin(d, log), steps, t, parse) && k in t.tables.calls
    requires forall x :: x in t.log ==> x.rec.tsMs != 0
    ensures
      var c, rs := t.tables.calls[k], OfCall(Recent(d, log, n, steps, t, parse, k), k);
      && (c.answered == 1 <==> c.answerTsMs != 0)
      && c.answerTsMs == (match First(rs, AnswerRow) case Some(x) => x.rec.tsMs case None => 0)
      && c.inviteId == (match First(rs, InviteRow) case Some(x) => x.id case None => 0)
  {
    hide Run, Summary, First, LastRemoval;
    ReachableClosedForm(d, log, n, steps, t, parse, k);
    NumberedFromOne(d, log, steps, t, parse);
    var recent := Recent(d, log, n, steps, t, parse, k);
    assert forall x :: x in recent ==> x in t.log;
    SummarySetOnce(OfCall(recent, k));
  }

  lemma {:induction false} NumberedFromOne(d: Tables, log: seq<Stored>, steps: seq<Step>, t: State, parse: Parser)
    requires Stands(d, log) && Run(Begin(d, log), steps, t, parse)
    ensures forall x :: x in t.log ==> x.id > 0
  {
    hide Run;
    EveryRun(d, log, steps, t, parse);
    assert IdsInOrder(Full(t.tables, t.log));
  }

  lemma SummaryFlags(rows: seq<Stored>, k: Key)
    requires OfCall(rows, k) != []
    ensures
      var c := Summary(OfCall(rows, k));
      && (c.open == 0 <==> exists x :: InCall(rows, k, x) && CloseRow(x))
      && (c.answered == 1 <==> exists x :: InCall(rows, k, x) && AnswerRow(x))
  {
    SomeRecord(rows, k, CloseRow);
    SomeRecord(rows, k, AnswerRow);
  }

  /** Retention can undo a close: the call is closed afterwards only if its row was kept or the new record closes it. */
  lemma ReopensAfterExpiry(calls: map<Key, CallRow>, x: Stored, cutoffMs: int)
    requires x.rec.callId != "" && KeyOf(x.rec) in calls && calls[KeyOf(x.rec)].open == 0
    ensures
      var k := KeyOf(x.rec);
      Touch(Expire(calls, cutoffMs), x)[k].open == 0 <==> calls[k].lastTsMs >= cutoffMs || Closes(x.rec)
  {
  }

  /** The final states of a writer: nothing batched, and every string that was taken from the channel has been counted. */
  lemma StoppedMeansCounted(s: State, parse: Parser)
    requires Inv(s, parse) && s.writer.Stopped?
    ensures s.counters.msgsTotal == s.counters.dbDrop + |s.queue| + s.counters.dbOk + s.counters.dbErr + InFlight(s.workers)
    ensures s.sent == Strings(s.flushes) + s.queue
    ensures |s.log| == |s.rows0| + s.counters.dbOk
  {
    hide Strings, CommittedRows, RowsIn;
    assert Strings(s.flushes) + [] + s.queue == Strings(s.flushes) + s.queue;
  }
}
