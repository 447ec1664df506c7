/** Laws of the three tables: batches, totals and order. */
module DatabaseLaws {
  import opened Sequences
  import opened Text
  import opened CallState
  import opened Database

  // ----- a batch as a list of rows -----

  /** A record and the text stored beside it. */
  type Row = (CaptureRecord, string)

  function Pair(recs: seq<CaptureRecord>, raws: seq<string>): (rows: seq<Row>)
    ensures |rows| == |recs|
  {
    if recs == [] then []
    else Pair(recs[..|recs| - 1], raws) + [(recs[|recs| - 1], RawAt(raws, |recs| - 1))]
  }

  function InsertRows(t: Tables, rows: seq<Row>): Tables {
    if rows == [] then t
    else
      var x := rows[|rows| - 1];
      Insert(InsertRows(t, rows[..|rows| - 1]), x.0, x.1)
  }

  lemma {:induction false} InsertAllIsRows(t: Tables, recs: seq<CaptureRecord>, raws: seq<string>)
    ensures InsertAll(t, recs, raws) == InsertRows(t, Pair(recs, raws))
  {
    if recs != [] {
      InsertAllIsRows(t, recs[..|recs| - 1], raws);
    }
  }

  lemma {:induction false} InsertRowsAppend(t: Tables, a: seq<Row>, b: seq<Row>)
    ensures InsertRows(t, a + b) == InsertRows(InsertRows(t, a), b)
  {
    if b == [] {
      assert a + b == a;
    } else {
      assert (a + b)[..|a + b| - 1] == a + b[..|b| - 1];
      InsertRowsAppend(t, a, b[..|b| - 1]);
    }
  }

  /** One committed batch: its parsed records and its strings. */
  datatype Batch = Batch(recs: seq<CaptureRecord>, raws: seq<string>)

  function InsertBatches(t: Tables, bs: seq<Batch>): Tables {
    if bs == [] then t else InsertAll(InsertBatches(t, bs[..|bs| - 1]), bs[|bs| - 1].recs, bs[|bs| - 1].raws)
  }

  function RowsOf(bs: seq<Batch>): seq<Row> {
    if bs == [] then [] else RowsOf(bs[..|bs| - 1]) + Pair(bs[|bs| - 1].recs, bs[|bs| - 1].raws)
  }

  /** However rows are cut into committed batches, all three tables end as if they came one at a time. */
  lemma {:induction false} BatchIndependence(t: Tables, bs: seq<Batch>)
    ensures InsertBatches(t, bs) == InsertRows(t, RowsOf(bs))
  {
    if bs != [] {
      var init, last := bs[..|bs| - 1], bs[|bs| - 1];
      BatchIndependence(t, init);
      InsertAllIsRows(InsertBatches(t, init), last.recs, last.raws);
      InsertRowsAppend(t, RowsOf(init), Pair(last.recs, last.raws));
    }
  }

  // ----- which text is stored beside which record -----

  /** The records of the strings that parse. */
  function Parsed(batch: seq<string>, parse: string -> Option<CaptureRecord>): seq<CaptureRecord> {
    if batch == [] then []
    else Parsed(batch[..|batch| - 1], parse) + match parse(batch[|batch| - 1]) case Some(r) => [r] case None => []
  }

  /** Each parsed record beside its own string. */
  function OwnRows(batch: seq<string>, parse: string -> Option<CaptureRecord>): seq<Row> {
    if batch == [] then []
    else
      OwnRows(batch[..|batch| - 1], parse)
      + match parse(batch[|batch| - 1]) case Some(r) => [(r, batch[|batch| - 1])] case None => []
  }

  lemma {:induction false} ParsedLength(batch: seq<string>, parse: string -> Option<CaptureRecord>)
    ensures |Parsed(batch, parse)| == |OwnRows(batch, parse)| <= |batch|
    ensures forall i :: 0 <= i < |OwnRows(batch, parse)| ==>
      OwnRows(batch, parse)[i].0 == Parsed(batch, parse)[i] && parse(OwnRows(batch, parse)[i].1).Some?
  {
    if batch != [] {
      ParsedLength(batch[..|batch| - 1], parse);
    }
  }

  /** No unparseable string stands before a parseable one. */
  predicate GoodThenBad(batch: seq<string>, parse: string -> Option<CaptureRecord>) {
    forall i, j :: 0 <= i < j < |batch| && parse(batch[i]).None? ==> parse(batch[j]).None?
  }

  /** The writer stores each record beside its own text exactly when no unparseable string precedes a parseable one. */
  lemma PairingExact(batch: seq<string>, parse: string -> Option<CaptureRecord>)
    ensures Pair(Parsed(batch, parse), batch) == OwnRows(batch, parse) <==> GoodThenBad(batch, parse)
  {
    PairAt(Parsed(batch, parse), batch);
    ParsedLength(batch, parse);
    if GoodThenBad(batch, parse) {
      GoodFirst(batch, parse);
    } else {
      var i0, j :| 0 <= i0 < j < |batch| && parse(batch[i0]).None? && parse(batch[j]).Some?;
      var i := FirstBad(batch, parse, i0);
      ParsedPast(batch, parse, i, j);
      assert Pair(Parsed(batch, parse), batch)[i].1 == batch[i];
    }
  }

  ghost function FirstBad(batch: seq<string>, parse: string -> Option<CaptureRecord>, bound: nat): (i: nat)
    requires bound < |batch| && parse(batch[bound]).None?
    ensures i <= bound && parse(batch[i]).None? && forall k :: 0 <= k < i ==> parse(batch[k]).Some?
    decreases bound
  {
    if exists b: nat :: b < bound && parse(batch[b]).None? then
      var b: nat :| b < bound && parse(batch[b]).None?;
      FirstBad(batch, parse, b)
    else bound
  }

  lemma {:induction false} PairAt(recs: seq<CaptureRecord>, raws: seq<string>)
    ensures forall i :: 0 <= i < |recs| ==> Pair(recs, raws)[i] == (recs[i], RawAt(raws, i))
  {
    if recs != [] {
      PairAt(recs[..|recs| - 1], raws);
    }
  }

  lemma {:induction false} GoodFirst(batch: seq<string>, parse: string -> Option<CaptureRecord>)
    requires GoodThenBad(batch, parse)
    ensures |OwnRows(batch, parse)| <= |batch|
    ensures forall i :: 0 <= i < |OwnRows(batch, parse)| ==> OwnRows(batch, parse)[i].1 == batch[i]
    ensures |batch| > 0 && parse(batch[|batch| - 1]).Some? ==> |OwnRows(batch, parse)| == |batch|
  {
    if batch != [] {
      var n := |batch| - 1;
      GoodFirst(batch[..n], parse);
      if parse(batch[n]).Some? {
        assert n > 0 ==> parse(batch[..n][n - 1]).Some?;
      }
    }
  }

  /** All strings before `i` parse and one behind it does, so more than `i` records come out. */
  lemma {:induction false} ParsedPast(batch: seq<string>, parse: string -> Option<CaptureRecord>, i: nat, j: nat)
    requires i < j < |batch| && parse(batch[j]).Some?
    requires forall k :: 0 <= k < i ==> parse(batch[k]).Some?
    ensures |Parsed(batch, parse)| > i
  {
    var n := |batch| - 1;
    if j == n {
      ParsedAtLeast(batch[..n], parse, i);
    } else {
      ParsedPast(batch[..n], parse, i, j);
    }
  }

  lemma {:induction false} ParsedAtLeast(batch: seq<string>, parse: string -> Option<CaptureRecord>, i: nat)
    requires i <= |batch| && forall k :: 0 <= k < i ==> parse(batch[k]).Some?
    ensures |Parsed(batch, parse)| >= i
  {
    if i > 0 {
      var n := |batch| - 1;
      ParsedAtLeast(batch[..n], parse, if i <= n then i else n);
    }
  }

  // ----- totals and order of the rollup -----

  ghost function Pick<K>(m: map<K, int>): (k: K)
    requires m != map[]
    ensures k in m
  {
    var k :| k in m;
    k
  }

  ghost function Total<K>(m: map<K, int>): int
    decreases |m|
  {
    if m == map[] then 0 else
      var k := Pick(m);
      assert (m - {k}).Keys < m.Keys;
      SmallerMap(m, k);
      m[k] + Total(m - {k})
  }

  lemma SmallerMap<K>(m: map<K, int>, k: K)
    requires k in m
    ensures |m - {k}| < |m|
  {
    assert (m - {k}).Keys == m.Keys - {k};
    assert |m.Keys - {k}| < |m.Keys|;
    assert |m.Keys| == |m| && |(m - {k}).Keys| == |m - {k}|;
  }

  lemma {:induction false} TotalRemove<K>(m: map<K, int>, k: K)
    requires k in m
    ensures Total(m) == m[k] + Total(m - {k})
    decreases |m|
  {
    var p := Pick(m);
    if p != k {
      SmallerMap(m, p);
      SmallerMap(m, k);
      TotalRemove(m - {p}, k);
      TotalRemove(m - {k}, p);
      assert m - {p} - {k} == m - {k} - {p};
    }
  }

  lemma TotalUpdate<K>(m: map<K, int>, k: K, v: int)
    ensures Total(m[k := v]) == Total(m) - Get(m, k) + v
  {
    TotalRemove(m[k := v], k);
    assert m[k := v] - {k} == m - {k};
    if k in m {
      TotalRemove(m, k);
    } else {
      assert m - {k} == m;
    }
  }

  function WithMethod(recs: seq<CaptureRecord>): nat {
    if recs == [] then 0
    else WithMethod(recs[..|recs| - 1]) + if recs[|recs| - 1].method_ != "" then 1 else 0
  }

  /** The rollup counts add up to the captures that have a method, bars in method names or not. */
  lemma {:induction false} RollupTotal(daily: map<Cell, int>, recs: seq<CaptureRecord>)
    ensures Total(RollAll(daily, recs)) == Total(daily) + WithMethod(recs)
  {
    if recs != [] {
      var r := recs[|recs| - 1];
      RollupTotal(daily, recs[..|recs| - 1]);
      CutOfKey(r);
      if r.method_ != "" {
        var c := CutKey(RollupKey(r)).value;
        var before := RollAll(daily, recs[..|recs| - 1]);
        TotalUpdate(before, c, Get(before, c) + 1);
      }
    }
  }

  lemma {:induction false} TallySplit(a: seq<CaptureRecord>, r: CaptureRecord, b: seq<CaptureRecord>, key: string)
    ensures Tally(a + [r] + b, key) == Tally(a + b, key) + (if r.method_ != "" && RollupKey(r) == key then 1 else 0)
  {
    hide Tally, RollupKey;
    if b == [] {
      TallySnoc(a, r, key);
      assert a + [r] + b == a + [r] && a + b == a;
    } else {
      var n := |b| - 1;
      TallySplit(a, r, b[..n], key);
      TallySnoc(a + [r] + b[..n], b[n], key);
      TallySnoc(a + b[..n], b[n], key);
      assert a + [r] + b == a + [r] + b[..n] + [b[n]] && a + b == a + b[..n] + [b[n]];
    }
  }

  lemma TallySnoc(a: seq<CaptureRecord>, r: CaptureRecord, key: string)
    ensures Tally(a + [r], key) == Tally(a, key) + (if r.method_ != "" && RollupKey(r) == key then 1 else 0)
  {
    assert (a + [r])[..|a|] == a;
  }

  /** Taking the same record out of both lists takes the same from both tallies. */
  lemma TallyWithout(a: seq<CaptureRecord>, b: seq<CaptureRecord>, j: nat, key: string)
    requires a != [] && j < |b| && b[j] == a[0]
    ensures Tally(a, key) - Tally(a[1..], key) == Tally(b, key) - Tally(b[..j] + b[j + 1..], key)
  {
    assert b == b[..j] + [b[j]] + b[j + 1..];
    assert a == [] + [a[0]] + a[1..] && [] + a[1..] == a[1..];
    TallySplit(b[..j], b[j], b[j + 1..], key);
    TallySplit([], a[0], a[1..], key);
  }

  lemma {:induction false} TallyOrder(a: seq<CaptureRecord>, b: seq<CaptureRecord>, key: string)
    requires multiset(a) == multiset(b)
    ensures Tally(a, key) == Tally(b, key)
    decreases |a|
  {
    if a == [] {
      assert |multiset(b)| == 0;
    } else {
      assert a[0] in multiset(b);
      var j :| 0 <= j < |b| && b[j] == a[0];
      TakeOut(a, b, j);
      TallyWithout(a, b, j, key);
      TallyOrder(a[1..], b[..j] + b[j + 1..], key);
    }
  }

  /** The rollup does not depend on the order in which records arrive. */
  lemma RollupOrder(daily: map<Cell, int>, a: seq<CaptureRecord>, b: seq<CaptureRecord>)
    requires multiset(a) == multiset(b)
    ensures RollAll(daily, a) == RollAll(daily, b)
  {
    forall c: Cell
      ensures c in RollAll(daily, a) <==> c in RollAll(daily, b)
      ensures Get(RollAll(daily, a), c) == Get(RollAll(daily, b), c)
    {
      RollAllCells(daily, a, c);
      RollAllCells(daily, b, c);
      TallyOrder(a, b, KeyAt(c));
    }
    forall c: Cell | c in RollAll(daily, a) ensures RollAll(daily, a)[c] == RollAll(daily, b)[c] {
      assert Get(RollAll(daily, a), c) == Get(RollAll(daily, b), c);
    }
  }

  /** A cell counts exactly the records of its day, method and transport when no method contains a bar. */
  lemma {:induction false} CellCounts(recs: seq<CaptureRecord>, c: Cell)
    requires forall r :: r in recs ==> '|' !in r.method_
    ensures Get(RollAll(map[], recs), c) == Matching(recs, c)
  {
    if recs != [] {
      var r := recs[|recs| - 1];
      CellCounts(recs[..|recs| - 1], c);
      CutOfKey(r);
    }
  }

  /**
   The times of UTC day `d`, counted from 1970 in milliseconds. Division truncates, so day 0 also takes in the day before
   1970, and a day before that begins where a later one ends.
   */
  predicate OnDay(tsMs: int, d: int) {
    if d > 0 then 86400000 * d <= tsMs < 86400000 * (d + 1)
    else if d < 0 then 86400000 * (d - 1) < tsMs <= 86400000 * d
    else -86400000 < tsMs < 86400000
  }

  /** The day column of a time is the number of its UTC day. */
  lemma DayColumn(tsMs: int, d: int)
    ensures DayKey(tsMs) == IntText(d) <==> OnDay(tsMs, d)
  {
    hide IntText;
    var e := if tsMs >= 0 then tsMs / 86400000 else -(-tsMs / 86400000);
    assert OnDay(tsMs, d) <==> d == e;
    if DayKey(tsMs) == IntText(d) {
      IntTextInjective(d, e);
    }
  }

  /** Two times from 1970 on share a day column exactly if the same number of whole days of 86,400,000 ms precede them. */
  lemma SameDay(a: nat, b: nat)
    ensures DayKey(a) == DayKey(b) <==> a / 86400000 == b / 86400000
  {
    hide DayKey;
    DayColumn(a, a / 86400000);
    DayColumn(b, a / 86400000);
  }

  /** The records with method `m` and transport `tr` of UTC day `d`. */
  function OfDay(recs: seq<CaptureRecord>, d: int, m: string, tr: string): nat {
    if recs == [] then 0
    else
      var r := recs[|recs| - 1];
      OfDay(recs[..|recs| - 1], d, m, tr) + if r.method_ == m && r.transport == tr && OnDay(r.tsMs, d) then 1 else 0
  }

  /** Where no method has a bar, the cell of a day, method and transport counts exactly the records of that UTC day. */
  lemma {:induction false} DayCellCounts(recs: seq<CaptureRecord>, d: int, m: string, tr: string)
    requires m != "" && forall r :: r in recs ==> '|' !in r.method_
    ensures Get(RollAll(map[], recs), (IntText(d), m, tr)) == OfDay(recs, d, m, tr)
  {
    CellCounts(recs, (IntText(d), m, tr));
    MatchingIsOfDay(recs, d, m, tr);
  }

  lemma {:induction false} MatchingIsOfDay(recs: seq<CaptureRecord>, d: int, m: string, tr: string)
    requires m != ""
    ensures Matching(recs, (IntText(d), m, tr)) == OfDay(recs, d, m, tr)
  {
    hide DayKey, IntText, OnDay;
    if recs != [] {
      MatchingIsOfDay(recs[..|recs| - 1], d, m, tr);
      DayColumn(recs[|recs| - 1].tsMs, d);
    }
  }

  /** Rows get consecutive ids, from the table's next one on. */
  lemma {:induction false} ConsecutiveIds(t: Tables, recs: seq<CaptureRecord>, raws: seq<string>)
    ensures
      var u := InsertAll(t, recs, raws);
      && |u.captures| == |t.captures| + |recs| && u.nextId == t.nextId + |recs|
      && forall j :: |t.captures| <= j < |u.captures| ==> u.captures[j].id == t.nextId + (j - |t.captures|)
  {
    hide Touch, Roll;
    if recs != [] {
      ConsecutiveIds(t, recs[..|recs| - 1], raws);
    }
  }

  function Matching(recs: seq<CaptureRecord>, c: Cell): nat {
    if recs == [] then 0
    else
      var r := recs[|recs| - 1];
      Matching(recs[..|recs| - 1], c) + if r.method_ != "" && (DayKey(r.tsMs), r.method_, r.transport) == c then 1 else 0
  }

  /** A bar in a method puts part of it into the transport column. */
  lemma BarMovesColumn(r: CaptureRecord)
    requires '|' in r.method_
    ensures (DayKey(r.tsMs), r.method_, r.transport) !in RollAll(map[], [r]) && Total(RollAll(map[], [r])) == 1
  {
    CutOfKey(r);
    RollupTotal(map[], [r]);
    assert [r][..0] == [];
    assert WithMethod([r]) == WithMethod([]) + 1;
    assert RollAll(map[], [r]) == Roll(RollAll(map[], []), r);
    assert Total<Cell>(map[]) == 0;
  }

  // ----- the three tables agree -----

  /** calls and daily are what the captures alone determine, and ids are positive, distinct and in order. */
  ghost predicate Consistent(t: Tables) {
    && t.calls == TouchAll(map[], t.captures)
    && RollupMatches(t)
    && IdsInOrder(t)
  }

  ghost predicate RollupMatches(t: Tables) {
    t.daily == RollAll(map[], Recs(t.captures))
  }

  /** Ids rise from above zero to below `limit`. */
  predicate IdsRise(captures: seq<Stored>, limit: nat) {
    && (forall i :: 0 <= i < |captures| ==> 0 < captures[i].id < limit)
    && (forall i, j :: 0 <= i < j < |captures| ==> captures[i].id < captures[j].id)
  }

  predicate IdsInOrder(t: Tables) {
    t.nextId > 0 && IdsRise(t.captures, t.nextId)
  }

  lemma InsertOneRollup(t: Tables, r: CaptureRecord, recordJson: string)
    requires RollupMatches(t)
    ensures RollupMatches(Insert(t, r, recordJson))
  {
    var x := Stored(r, t.nextId, recordJson);
    assert Recs(t.captures + [x]) == Recs(t.captures) + [r];
    assert (Recs(t.captures) + [r])[..|t.captures|] == Recs(t.captures);
  }

  lemma InsertOneCalls(t: Tables, r: CaptureRecord, recordJson: string)
    requires t.calls == TouchAll(map[], t.captures)
    ensures
      var u := Insert(t, r, recordJson);
      u.calls == TouchAll(map[], u.captures)
  {
    var x := Stored(r, t.nextId, recordJson);
    assert (t.captures + [x])[..|t.captures|] == t.captures;
  }

  lemma InsertOne(t: Tables, r: CaptureRecord, recordJson: string)
    ensures RollupMatches(t) ==> RollupMatches(Insert(t, r, recordJson))
    ensures IdsInOrder(t) ==> IdsInOrder(Insert(t, r, recordJson))
    ensures Consistent(t) ==> Consistent(Insert(t, r, recordJson))
  {
    if RollupMatches(t) {
      InsertOneRollup(t, r, recordJson);
    }
    if t.calls == TouchAll(map[], t.captures) {
      InsertOneCalls(t, r, recordJson);
    }
  }

  lemma {:induction false} InsertRowsKeeps(t: Tables, rows: seq<Row>)
    ensures RollupMatches(t) ==> RollupMatches(InsertRows(t, rows))
    ensures IdsInOrder(t) ==> IdsInOrder(InsertRows(t, rows))
    ensures Consistent(t) ==> Consistent(InsertRows(t, rows))
    ensures |InsertRows(t, rows).captures| == |t.captures| + |rows|
  {
    if rows != [] {
      var x := rows[|rows| - 1];
      InsertRowsKeeps(t, rows[..|rows| - 1]);
      InsertOne(InsertRows(t, rows[..|rows| - 1]), x.0, x.1);
    }
  }
}
