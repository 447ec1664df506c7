/**
 The writer's database (core-go/db.go): the captures, call_state and report_daily tables,
 and the batch insert that updates all three in one transaction.
 */
module Database {
  import opened Text
  import opened CallState

  /** A report_daily key: day, method, transport. */
  type Cell = (string, string, string)

  datatype Tables = Tables(
    captures: seq<Stored>, calls: map<Key, CallRow>, daily: map<Cell, int>, nextId: nat)

  // ----- daily rollup -----

  /** Unix day number as text; integer division truncates toward zero. */
  function DayKey(tsMs: int): string {
    IntText(if tsMs >= 0 then tsMs / 86400000 else -(-tsMs / 86400000))
  }

  function RollupKey(r: CaptureRecord): string {
    DayKey(r.tsMs) + "|" + r.method_ + "|" + r.transport
  }

  /** The three columns a rollup key is cut into, if it has at least two bars. */
  function CutKey(key: string): Option<Cell> {
    var i := IndexOf(key, '|');
    if i < 0 then None
    else
      var rest := key[i + 1..];
      var j := IndexOf(rest, '|');
      if j < 0 then None else Some((key[..i], rest[..j], rest[j + 1..]))
  }

  function Get<K>(m: map<K, int>, k: K): int {
    if k in m then m[k] else 0
  }

  /** Counting `cnt` more under a rollup key. */
  function Bump(daily: map<Cell, int>, key: string, cnt: int): map<Cell, int> {
    match CutKey(key)
    case Some(c) => daily[c := Get(daily, c) + cnt]
    case None => daily
  }

  function Roll(daily: map<Cell, int>, r: CaptureRecord): map<Cell, int> {
    if r.method_ == "" then daily else Bump(daily, RollupKey(r), 1)
  }

  // ----- one record at a time -----

  /** What inserting a single record does to the tables. */
  function Insert(t: Tables, r: CaptureRecord, recordJson: string): Tables {
    var x := Stored(r, t.nextId, recordJson);
    Tables(t.captures + [x], Touch(t.calls, x), Roll(t.daily, r), t.nextId + 1)
  }

  /** The text stored beside record `i`: the batch's `i`-th string, or nothing past its end. */
  function RawAt(raws: seq<string>, i: nat): string {
    if i < |raws| then raws[i] else ""
  }

  function InsertAll(t: Tables, recs: seq<CaptureRecord>, raws: seq<string>): Tables {
    if recs == [] then t
    else
      var n := |recs| - 1;
      Insert(InsertAll(t, recs[..n], raws), recs[n], RawAt(raws, n))
  }

  // ----- what a rollup key means -----

  lemma {:induction false} NatTextHasNoBar(n: nat)
    ensures '|' !in NatText(n)
  {
    assert forall i :: 0 <= i < |NatText(n)| ==> IsDigit(NatText(n)[i]);
  }

  lemma DayKeyHasNoBar(tsMs: int)
    ensures '|' !in DayKey(tsMs)
  {
    var d := if tsMs >= 0 then tsMs / 86400000 else -(-tsMs / 86400000);
    NatTextHasNoBar(if d < 0 then -d else d);
  }

  /** Every record with a method lands in a cell of its own day. */
  lemma CutOfKey(r: CaptureRecord)
    ensures CutKey(RollupKey(r)).Some? && CutKey(RollupKey(r)).value.0 == DayKey(r.tsMs)
    ensures CutKey(RollupKey(r)) == Some((DayKey(r.tsMs), r.method_, r.transport)) <==> '|' !in r.method_
  {
    DayKeyHasNoBar(r.tsMs);
    var day := DayKey(r.tsMs);
    var rest := r.method_ + "|" + r.transport;
    assert RollupKey(r) == day + ['|'] + rest;
    CutAfterDay(day, rest);
    assert rest == r.method_ + ['|'] + r.transport;
    CutMethod(r.method_, r.transport);
  }

  lemma CutAfterDay(day: string, rest: string)
    requires '|' !in day
    ensures
      var j := IndexOf(rest, '|');
      CutKey(day + ['|'] + rest) == if j < 0 then None else Some((day, rest[..j], rest[j + 1..]))
  {
    var key := day + ['|'] + rest;
    IndexOfAfter(day, '|', rest);
    assert key[..|day|] == day && key[|day| + 1..] == rest;
  }

  lemma CutMethod(m: string, t: string)
    ensures
      var rest := m + ['|'] + t;
      var j := IndexOf(rest, '|');
      0 <= j && ((rest[..j] == m && rest[j + 1..] == t) <==> '|' !in m)
  {
    var rest := m + ['|'] + t;
    assert rest[|m|] == '|';
    if '|' !in m {
      IndexOfAfter(m, '|', t);
      assert rest[..|m|] == m && rest[|m| + 1..] == t;
    }
  }

  /** A rollup key can be put together again from its cell, so different keys never share one. */
  lemma CutKeyInjective(a: string, b: string)
    requires CutKey(a).Some? && CutKey(a) == CutKey(b)
    ensures a == b
  {
    Rejoin(a);
    Rejoin(b);
  }

  lemma Rejoin(a: string)
    requires CutKey(a).Some?
    ensures var c := CutKey(a).value; a == c.0 + "|" + c.1 + "|" + c.2
  {
    var i := IndexOf(a, '|');
    var rest := a[i + 1..];
    var c := CutKey(a).value;
  }

  // ----- the rollup of a batch -----

  /** How many records that have a method carry this rollup key. */
  function Tally(recs: seq<CaptureRecord>, key: string): nat {
    if recs == [] then 0
    else
      var r := recs[|recs| - 1];
      Tally(recs[..|recs| - 1], key) + if r.method_ != "" && RollupKey(r) == key then 1 else 0
  }

  function RollAll(daily: map<Cell, int>, recs: seq<CaptureRecord>): map<Cell, int> {
    if recs == [] then daily else Roll(RollAll(daily, recs[..|recs| - 1]), recs[|recs| - 1])
  }

  function KeyAt(c: Cell): string {
    c.0 + "|" + c.1 + "|" + c.2
  }

  /** How many records count towards a cell. */
  function CellTally(recs: seq<CaptureRecord>, c: Cell): nat {
    if CutKey(KeyAt(c)) == Some(c) then Tally(recs, KeyAt(c)) else 0
  }

  /** What one record adds to a cell. */
  function Weight(r: CaptureRecord, c: Cell): nat {
    if CutKey(KeyAt(c)) == Some(c) && r.method_ != "" && RollupKey(r) == KeyAt(c) then 1 else 0
  }

  lemma RollCell(daily: map<Cell, int>, r: CaptureRecord, c: Cell)
    ensures Get(Roll(daily, r), c) == Get(daily, c) + Weight(r, c)
    ensures c in Roll(daily, r) <==> c in daily || Weight(r, c) > 0
  {
    CutOfKey(r);
    Rejoin(RollupKey(r));
  }

  /** Cell by cell, rolling records up one at a time adds their tallies. */
  lemma {:induction false} RollAllCells(daily: map<Cell, int>, recs: seq<CaptureRecord>, c: Cell)
    ensures Get(RollAll(daily, recs), c) == Get(daily, c) + CellTally(recs, c)
    ensures c in RollAll(daily, recs) <==> c in daily || CellTally(recs, c) > 0
  {
    if recs != [] {
      var n := |recs| - 1;
      RollAllCells(daily, recs[..n], c);
      RollCell(RollAll(daily, recs[..n]), recs[n], c);
      assert CellTally(recs, c) == CellTally(recs[..n], c) + Weight(recs[n], c);
    }
  }

  /** `d` is `daily` plus the counts of the keys in `done`. */
  ghost predicate Applied(daily: map<Cell, int>, d: map<Cell, int>, counts: map<string, int>, done: set<string>)
    requires done <= counts.Keys
  {
    forall c: Cell ::
      var hit := KeyAt(c) in done && CutKey(KeyAt(c)) == Some(c);
      && (c in d <==> c in daily || hit)
      && Get(d, c) == Get(daily, c) + (if hit then counts[KeyAt(c)] else 0)
  }

  lemma {:induction false} ApplyKey(
    daily: map<Cell, int>, d: map<Cell, int>, counts: map<string, int>, done: set<string>, key: string)
    requires done <= counts.Keys && key in counts && key !in done && CutKey(key).Some?
    requires Applied(daily, d, counts, done)
    ensures Applied(daily, Bump(d, key, counts[key]), counts, done + {key})
  {
    Rejoin(key);
  }

  /** The accumulated counts of a batch. */
  ghost predicate Counted(counts: map<string, int>, recs: seq<CaptureRecord>) {
    && (forall k :: k in counts <==> Tally(recs, k) > 0)
    && (forall k :: k in counts ==> counts[k] == Tally(recs, k) && CutKey(k).Some?)
  }

  lemma CountOne(counts: map<string, int>, recs: seq<CaptureRecord>, r: CaptureRecord)
    requires Counted(counts, recs)
    ensures Counted(
      if r.method_ == "" then counts else counts[RollupKey(r) := Get(counts, RollupKey(r)) + 1], recs + [r])
  {
    CutOfKey(r);
    assert (recs + [r])[..|recs|] == recs;
  }

  /** Adding a batch's counts key by key is rolling its records up one at a time. */
  lemma BulkIsOneByOne(daily: map<Cell, int>, d: map<Cell, int>, counts: map<string, int>, recs: seq<CaptureRecord>)
    requires Counted(counts, recs) && Applied(daily, d, counts, counts.Keys)
    ensures d == RollAll(daily, recs)
  {
    forall c: Cell ensures c in d <==> c in RollAll(daily, recs) {
      RollAllCells(daily, recs, c);
    }
    forall c: Cell | c in d ensures d[c] == RollAll(daily, recs)[c] {
      RollAllCells(daily, recs, c);
      assert Get(d, c) == Get(RollAll(daily, recs), c);
    }
  }

  lemma {:induction false} InsertAllDaily(t: Tables, recs: seq<CaptureRecord>, raws: seq<string>)
    ensures InsertAll(t, recs, raws).daily == RollAll(t.daily, recs)
  {
    if recs != [] {
      InsertAllDaily(t, recs[..|recs| - 1], raws);
    }
  }

  // ----- the batch insert -----

  /** The tables inside a transaction whose records are in but whose rollup is not. */
  function Staged(t: Tables, recs: seq<CaptureRecord>, raws: seq<string>): Tables {
    InsertAll(t, recs, raws).(daily := t.daily)
  }

  lemma NothingStaged(t: Tables, raws: seq<string>)
    ensures Staged(t, [], raws) == t && Counted(map[], [])
  {
  }

  lemma StageOne(t: Tables, recs: seq<CaptureRecord>, raws: seq<string>, r: CaptureRecord)
    ensures
      var a := Staged(t, recs, raws);
      var x := Stored(r, a.nextId, RawAt(raws, |recs|));
      Staged(t, recs + [r], raws) == a.(captures := a.captures + [x], calls := Touch(a.calls, x), nextId := a.nextId + 1)
  {
    assert (recs + [r])[..|recs|] == recs;
  }

  lemma Prefix<T>(s: seq<T>, i: nat)
    requires i < |s|
    ensures s[..i + 1] == s[..i] + [s[i]]
  {
  }

  /**
   The loop over the records. `stmtOk(k)` says whether the database accepts the `k`-th statement of the
   transaction; PostgreSQL refuses every statement after a refused one. Ids drawn from the sequence are
   not given back.
   */
  method InsertRecords(t: Tables, recs: seq<CaptureRecord>, raws: seq<string>, stmtOk: nat -> bool)
    returns (tx: Tables, dailyCounts: map<string, int>, healthy: bool, n: nat)
    ensures tx.nextId >= t.nextId
    ensures healthy ==> tx == Staged(t, recs, raws) && Counted(dailyCounts, recs)
    ensures (forall k :: stmtOk(k)) ==> healthy
  {
    hide Staged, Counted, Upsert, RollupKey, KeyOf;
    tx, healthy, n := t, true, 1;
    dailyCounts := map[];
    NothingStaged(t, raws);
    for i := 0 to |recs|
      invariant tx.nextId >= t.nextId
      invariant healthy ==> tx == Staged(t, recs[..i], raws) && Counted(dailyCounts, recs[..i])
      invariant (forall k :: stmtOk(k)) ==> healthy
    {
      var rec, rawJson, id := recs[i], RawAt(raws, i), tx.nextId;
      Prefix(recs, i);
      StageOne(t, recs[..i], raws, rec);
      if healthy {
        CountOne(dailyCounts, recs[..i], rec);
        tx := tx.(nextId := tx.nextId + 1);
      }
      healthy := healthy && stmtOk(n);
      n := n + 1;
      if !healthy {
        continue;
      }
      tx := tx.(captures := tx.captures + [Stored(rec, id, rawJson)]);
      if rec.callId != "" {
        healthy := healthy && stmtOk(n);
        n := n + 1;
        if healthy {
          tx := tx.(calls := Touch(tx.calls, Stored(rec, id, rawJson)));
        }
      }
      if rec.method_ != "" {
        var key := RollupKey(rec);
        dailyCounts := dailyCounts[key := Get(dailyCounts, key) + 1];
      }
    }
    assert recs[..|recs|] == recs;
  }

  /** The loop over the accumulated counts, in whatever order the map yields its keys. */
  method RollUp(tx0: Tables, dailyCounts: map<string, int>, healthy0: bool, n0: nat, stmtOk: nat -> bool)
    returns (tx: Tables, healthy: bool, n: nat)
    requires healthy0 ==> forall k :: k in dailyCounts ==> CutKey(k).Some?
    ensures tx == tx0.(daily := tx.daily)
    ensures healthy ==> healthy0 && Applied(tx0.daily, tx.daily, dailyCounts, dailyCounts.Keys)
    ensures healthy0 && (forall k :: stmtOk(k)) ==> healthy
  {
    hide CutKey, Get;
    tx, healthy, n := tx0, healthy0, n0;
    var keys := dailyCounts.Keys;
    while keys != {}
      invariant keys <= dailyCounts.Keys && tx == tx0.(daily := tx.daily)
      invariant healthy ==> healthy0 && Applied(tx0.daily, tx.daily, dailyCounts, dailyCounts.Keys - keys)
      invariant healthy0 && (forall k :: stmtOk(k)) ==> healthy
      decreases keys
    {
      var key :| key in keys;
      if healthy {
        ApplyKey(tx0.daily, tx.daily, dailyCounts, dailyCounts.Keys - keys, key);
        assert dailyCounts.Keys - (keys - {key}) == (dailyCounts.Keys - keys) + {key};
      }
      keys := keys - {key};
      if CutKey(key).Some? {
        healthy := healthy && stmtOk(n);
        n := n + 1;
        if healthy {
          tx := tx.(daily := Bump(tx.daily, key, dailyCounts[key]));
        }
      }
    }
    assert dailyCounts.Keys - keys == dailyCounts.Keys;
  }

  class Db {
    var tables: Tables

    /** Inserts a batch in one transaction: all of it, exactly as one record at a time, or none of it. */
    method DbBatchInsert(recs: seq<CaptureRecord>, raws: seq<string>, stmtOk: nat -> bool) returns (ok: bool)
      modifies this
      ensures ok ==> tables == InsertAll(old(tables), recs, raws)
      ensures !ok ==> tables == old(tables).(nextId := tables.nextId) && tables.nextId >= old(tables).nextId
      ensures (forall k :: stmtOk(k)) ==> ok
    {
      if recs == [] {
        return true;
      }
      if !stmtOk(0) {
        return false;
      }
      var tx, dailyCounts, healthy, n := InsertRecords(tables, recs, raws, stmtOk);
      ghost var staged := tx;
      tx, healthy, n := RollUp(tx, dailyCounts, healthy, n, stmtOk);
      ok := healthy && stmtOk(n);
      if ok {
        BulkIsOneByOne(tables.daily, tx.daily, dailyCounts, recs);
        InsertAllDaily(tables, recs, raws);
        tables := tx;
      } else {
        tables := tables.(nextId := tx.nextId);
      }
    }
  }
}
