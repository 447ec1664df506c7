/**
 The per-call row of the call_state table (core-go/db.go): the upsert transcribed from its SQL,
 and what a row says about the records that were folded into it.
 */
module CallState {
  import opened Text
  import opened Sequences

  /** A capture record as the writer reads it back from JSON. */
  datatype CaptureRecord = CaptureRecord(
    tsMs: int, src: string, dst: string, transport: string, proto: string, agent: string, kind: string,
    method_: string, status: int, callId: string, from: string, to: string, cseq: string, ruri: string,
    hepNodeId: int, hepNode: string, hepCid: string, size: int, rawB64: string)

  /** A row of the captures table. */
  datatype Stored = Stored(rec: CaptureRecord, id: int, recordJson: string)

  type Key = (string, string)

  /** A row of call_state without its key and without the qos columns, which this code never writes. */
  datatype CallRow = CallRow(
    firstTsMs: int, answerTsMs: int, lastTsMs: int, lastId: int, inviteId: int, lastMethod: string, lastStatus: int,
    answered: int, open: int, src: string, dst: string, from: string, to: string, recordJson: string)

  function KeyOf(r: CaptureRecord): Key {
    (r.callId, r.agent)
  }

  /** The method without its status-class prefix: what follows the first space, if there is one. */
  function BaseMethod(m: string): string {
    var i := IndexOf(m, ' ');
    if i >= 0 then m[i + 1..] else m
  }

  predicate Closes(r: CaptureRecord) {
    BaseMethod(r.method_) == "BYE" || BaseMethod(r.method_) == "CANCEL"
  }

  predicate Answers(r: CaptureRecord) {
    BaseMethod(r.method_) == "INVITE" && r.kind == "response" && 200 <= r.status < 300
  }

  predicate Invites(r: CaptureRecord) {
    BaseMethod(r.method_) == "INVITE" && r.kind == "request"
  }

  /** INSERT ... ON CONFLICT DO UPDATE, column by column. */
  function Upsert(prev: Option<CallRow>, x: Stored): CallRow {
    var r, id := x.rec, x.id;
    match prev
    case None =>
      CallRow(
        r.tsMs,
        if Answers(r) then r.tsMs else 0,
        r.tsMs,
        id,
        if Invites(r) then id else 0,
        r.method_, r.status,
        if Answers(r) then 1 else 0,
        if Closes(r) then 0 else 1,
        r.src, r.dst, r.from, r.to, r.method_ + " record")
    case Some(c) =>
      c.(lastTsMs := if c.lastTsMs >= r.tsMs then c.lastTsMs else r.tsMs,
         lastId := id,
         lastMethod := r.method_,
         lastStatus := r.status,
         open := if Closes(r) then 0 else c.open,
         answered := if Answers(r) then 1 else c.answered,
         inviteId := if Invites(r) && c.inviteId == 0 then id else c.inviteId,
         answerTsMs := if Answers(r) && c.answerTsMs == 0 then r.tsMs else c.answerTsMs,
         recordJson := r.method_ + " record")
  }

  /** One record's effect on the table; records without a call id leave it alone. */
  function Touch(calls: map<Key, CallRow>, x: Stored): map<Key, CallRow> {
    if x.rec.callId == "" then calls
    else
      var k := KeyOf(x.rec);
      calls[k := Upsert(if k in calls then Some(calls[k]) else None, x)]
  }

  function TouchAll(calls: map<Key, CallRow>, rows: seq<Stored>): map<Key, CallRow> {
    if rows == [] then calls else Touch(TouchAll(calls, rows[..|rows| - 1]), rows[|rows| - 1])
  }

  // ----- the declarative summary -----

  /** The rows of one call, in order. */
  function OfCall(rows: seq<Stored>, k: Key): (r: seq<Stored>)
    ensures forall x :: x in r ==> x in rows && KeyOf(x.rec) == k && x.rec.callId != ""
  {
    if rows == [] then []
    else
      var x := rows[|rows| - 1];
      OfCall(rows[..|rows| - 1], k) + if x.rec.callId != "" && KeyOf(x.rec) == k then [x] else []
  }

  /** The first row with property `p`, if any. */
  function First(rows: seq<Stored>, p: Stored -> bool): Option<Stored> {
    if rows == [] then None
    else
      var f := First(rows[..|rows| - 1], p);
      if f.Some? then f else if p(rows[|rows| - 1]) then Some(rows[|rows| - 1]) else None
  }

  lemma {:induction false} FirstMeaning(rows: seq<Stored>, p: Stored -> bool)
    ensures First(rows, p).None? <==> forall i :: 0 <= i < |rows| ==> !p(rows[i])
    ensures First(rows, p).Some? ==>
      exists i :: 0 <= i < |rows| && First(rows, p).value == rows[i] && p(rows[i]) && forall j :: 0 <= j < i ==> !p(rows[j])
  {
    if rows != [] {
      FirstMeaning(rows[..|rows| - 1], p);
    }
  }

  /** The largest timestamp. */
  function MaxTs(rows: seq<Stored>): (t: int)
    requires rows != []
    ensures forall i :: 0 <= i < |rows| ==> rows[i].rec.tsMs <= t
    ensures exists i :: 0 <= i < |rows| && rows[i].rec.tsMs == t
  {
    if |rows| == 1 then rows[0].rec.tsMs
    else
      var t := MaxTs(rows[..|rows| - 1]);
      if t >= rows[|rows| - 1].rec.tsMs then t else rows[|rows| - 1].rec.tsMs
  }

  predicate AnswerRow(x: Stored) { Answers(x.rec) }
  predicate CloseRow(x: Stored) { Closes(x.rec) }
  /** Zero counts as "not set" in the two columns below, as it does in the SQL. */
  predicate StampedAnswer(x: Stored) { Answers(x.rec) && x.rec.tsMs != 0 }
  predicate NumberedInvite(x: Stored) { Invites(x.rec) && x.id != 0 }

  /** A row as a statement about all records of its call. */
  function Summary(rows: seq<Stored>): CallRow
    requires rows != []
  {
    var first, last := rows[0].rec, rows[|rows| - 1];
    CallRow(
      first.tsMs,
      match First(rows, StampedAnswer) case Some(x) => x.rec.tsMs case None => 0,
      MaxTs(rows),
      last.id,
      match First(rows, NumberedInvite) case Some(x) => x.id case None => 0,
      last.rec.method_, last.rec.status,
      if First(rows, AnswerRow).Some? then 1 else 0,
      if First(rows, CloseRow).Some? then 0 else 1,
      first.src, first.dst, first.from, first.to, last.rec.method_ + " record")
  }

  lemma SummaryOne(x: Stored)
    ensures Summary([x]) == Upsert(None, x)
  {
    FirstOne(x, StampedAnswer);
    FirstOne(x, NumberedInvite);
    FirstOne(x, AnswerRow);
    FirstOne(x, CloseRow);
  }

  lemma FirstOne(x: Stored, p: Stored -> bool)
    ensures First([x], p) == if p(x) then Some(x) else None
  {
    assert [x][..0] == [];
  }

  lemma FirstSnoc(rows: seq<Stored>, x: Stored, p: Stored -> bool)
    ensures First(rows + [x], p) == if First(rows, p).Some? then First(rows, p) else if p(x) then Some(x) else None
  {
    assert (rows + [x])[..|rows|] == rows;
  }

  lemma {:induction false} FirstHolds(rows: seq<Stored>, p: Stored -> bool)
    ensures First(rows, p).Some? ==> p(First(rows, p).value)
  {
    FirstMeaning(rows, p);
  }

  /** The upsert extends the summary by one record. */
  lemma SummarySnoc(rows: seq<Stored>, x: Stored)
    requires rows != []
    ensures Summary(rows + [x]) == Upsert(Some(Summary(rows)), x)
  {
    FirstSnoc(rows, x, StampedAnswer);
    FirstSnoc(rows, x, NumberedInvite);
    FirstSnoc(rows, x, AnswerRow);
    FirstSnoc(rows, x, CloseRow);
    FirstHolds(rows, StampedAnswer);
    FirstHolds(rows, NumberedInvite);
    assert (rows + [x])[..|rows|] == rows;
  }

  /** Closed form: a table built from nothing holds, for each call seen, the summary of its records, and nothing else. */
  lemma {:induction false} ClosedForm(rows: seq<Stored>, k: Key)
    ensures k in TouchAll(map[], rows) <==> OfCall(rows, k) != []
    ensures k in TouchAll(map[], rows) ==> TouchAll(map[], rows)[k] == Summary(OfCall(rows, k))
  {
    if rows != [] {
      var init, x := rows[..|rows| - 1], rows[|rows| - 1];
      ClosedForm(init, k);
      if x.rec.callId != "" && KeyOf(x.rec) == k {
        if OfCall(init, k) == [] {
          SummaryOne(x);
          assert OfCall(rows, k) == [x];
        } else {
          SummarySnoc(OfCall(init, k), x);
        }
      } else {
        assert OfCall(rows, k) == OfCall(init, k);
      }
    }
  }

  /** A record of call `k` is somewhere in `rows`. */
  predicate InCall(rows: seq<Stored>, k: Key, x: Stored) {
    x in rows && x.rec.callId != "" && KeyOf(x.rec) == k
  }

  lemma {:induction false} OfCallMembers(rows: seq<Stored>, k: Key)
    ensures forall x :: x in OfCall(rows, k) <==> InCall(rows, k, x)
  {
    if rows != [] {
      var init, x := rows[..|rows| - 1], rows[|rows| - 1];
      OfCallMembers(init, k);
      assert rows == init + [x];
    }
  }

  /** Some record of call `k` has property `p`, in one list or the other. */
  lemma SomeRecord(rows: seq<Stored>, k: Key, p: Stored -> bool)
    ensures First(OfCall(rows, k), p).Some? <==> exists x :: InCall(rows, k, x) && p(x)
  {
    hide OfCall, InCall;
    var rs := OfCall(rows, k);
    OfCallMembers(rows, k);
    FirstMeaning(rs, p);
    if x :| InCall(rows, k, x) && p(x) {
      assert x in rs;
    }
    if i :| 0 <= i < |rs| && p(rs[i]) {
      assert InCall(rows, k, rs[i]);
    }
  }

  lemma LatestRecord(rows: seq<Stored>, k: Key)
    requires OfCall(rows, k) != []
    ensures forall x :: InCall(rows, k, x) ==> x.rec.tsMs <= MaxTs(OfCall(rows, k))
    ensures exists x :: InCall(rows, k, x) && x.rec.tsMs == MaxTs(OfCall(rows, k))
  {
    var rs := OfCall(rows, k);
    OfCallMembers(rows, k);
    forall x | InCall(rows, k, x) ensures x.rec.tsMs <= MaxTs(rs) {
      assert x in rs;
    }
    var i :| 0 <= i < |rs| && rs[i].rec.tsMs == MaxTs(rs);
    assert InCall(rows, k, rs[i]);
  }

  /** The columns reports read, in terms of the records seen: two existence claims and a maximum. */
  lemma RowMeaning(rows: seq<Stored>, k: Key)
    requires k in TouchAll(map[], rows)
    ensures
      var c := TouchAll(map[], rows)[k];
      && (c.open == 0 <==> exists x :: InCall(rows, k, x) && CloseRow(x))
      && (c.open == 1 <==> c.open != 0)
      && (c.answered == 1 <==> exists x :: InCall(rows, k, x) && AnswerRow(x))
      && (c.answered == 0 <==> c.answered != 1)
      && (forall x :: InCall(rows, k, x) ==> x.rec.tsMs <= c.lastTsMs)
      && (exists x :: InCall(rows, k, x) && x.rec.tsMs == c.lastTsMs)
  {
    ClosedForm(rows, k);
    SomeRecord(rows, k, CloseRow);
    SomeRecord(rows, k, AnswerRow);
    LatestRecord(rows, k);
  }

  predicate InviteRow(x: Stored) { Invites(x.rec) }

  lemma SummarySetOnce(rs: seq<Stored>)
    requires rs != [] && forall x :: x in rs ==> x.rec.tsMs != 0 && x.id != 0
    ensures
      var c := Summary(rs);
      && (c.answered == 1 <==> c.answerTsMs != 0)
      && c.answerTsMs == (match First(rs, AnswerRow) case Some(x) => x.rec.tsMs case None => 0)
      && c.inviteId == (match First(rs, InviteRow) case Some(x) => x.id case None => 0)
  {
    SameFirst(rs, StampedAnswer, AnswerRow);
    SameFirst(rs, NumberedInvite, InviteRow);
    FirstHolds(rs, StampedAnswer);
  }

  /** With real timestamps and ids, the set-once columns are those of the first answer and the first INVITE. */
  lemma SetOnceMeaning(rows: seq<Stored>, k: Key)
    requires k in TouchAll(map[], rows)
    requires forall x :: x in rows ==> x.rec.tsMs != 0 && x.id != 0
    ensures
      var c, rs := TouchAll(map[], rows)[k], OfCall(rows, k);
      && (c.answered == 1 <==> c.answerTsMs != 0)
      && c.answerTsMs == (match First(rs, AnswerRow) case Some(x) => x.rec.tsMs case None => 0)
      && c.inviteId == (match First(rs, InviteRow) case Some(x) => x.id case None => 0)
  {
    ClosedForm(rows, k);
    SummarySetOnce(OfCall(rows, k));
  }

  lemma {:induction false} SameFirst(rows: seq<Stored>, p: Stored -> bool, q: Stored -> bool)
    requires forall x :: x in rows ==> p(x) == q(x)
    ensures First(rows, p) == First(rows, q)
  {
    if rows != [] {
      SameFirst(rows[..|rows| - 1], p, q);
    }
  }

  // ----- safety of a row's history -----

  /** What no later record can undo. */
  predicate Evolves(a: CallRow, b: CallRow) {
    && (a.open == 0 ==> b.open == 0)
    && (a.answered == 1 ==> b.answered == 1)
    && (a.inviteId != 0 ==> b.inviteId == a.inviteId)
    && (a.answerTsMs != 0 ==> b.answerTsMs == a.answerTsMs)
    && a.lastTsMs <= b.lastTsMs
    && b.firstTsMs == a.firstTsMs && b.src == a.src && b.dst == a.dst && b.from == a.from && b.to == a.to
  }

  /** Flags are bits and the answer never lies after the last message. */
  predicate RowOk(c: CallRow) {
    && (c.open == 0 || c.open == 1) && (c.answered == 0 || c.answered == 1)
    && (c.answerTsMs != 0 ==> c.answered == 1 && c.answerTsMs <= c.lastTsMs)
    && c.firstTsMs <= c.lastTsMs
  }

  lemma {:induction false} RunEvolves(calls: map<Key, CallRow>, rows: seq<Stored>, k: Key)
    requires k in calls
    ensures k in TouchAll(calls, rows) && Evolves(calls[k], TouchAll(calls, rows)[k])
    ensures OfCall(rows, k) == [] ==> TouchAll(calls, rows)[k] == calls[k]
  {
    if rows != [] {
      RunEvolves(calls, rows[..|rows| - 1], k);
    }
  }

  lemma {:induction false} RowsStayOk(calls: map<Key, CallRow>, rows: seq<Stored>)
    requires forall k :: k in calls ==> RowOk(calls[k])
    ensures forall k :: k in TouchAll(calls, rows) ==> RowOk(TouchAll(calls, rows)[k])
  {
    if rows != [] {
      RowsStayOk(calls, rows[..|rows| - 1]);
    }
  }

  // ----- order does not matter for the flags -----

  function Recs(rows: seq<Stored>): (rs: seq<CaptureRecord>)
    ensures |rs| == |rows| && forall i :: 0 <= i < |rs| ==> rs[i] == rows[i].rec
  {
    seq(|rows|, i requires 0 <= i < |rows| => rows[i].rec)
  }

  lemma SameMembers(a: seq<Stored>, b: seq<Stored>, k: Key, x: Stored)
    requires multiset(Recs(a)) == multiset(Recs(b)) && InCall(a, k, x)
    ensures exists y :: InCall(b, k, y) && y.rec == x.rec
  {
    var i :| 0 <= i < |a| && a[i] == x;
    assert Recs(a)[i] in multiset(Recs(a));
    assert x.rec in multiset(Recs(b));
    assert x.rec in Recs(b);
    var j :| 0 <= j < |Recs(b)| && Recs(b)[j] == x.rec;
    assert InCall(b, k, b[j]);
  }

  /** Delivering the same records in any order gives the same calls, flags and last activity. */
  lemma OrderIndependent(a: seq<Stored>, b: seq<Stored>, k: Key)
    requires multiset(Recs(a)) == multiset(Recs(b))
    ensures k in TouchAll(map[], a) <==> k in TouchAll(map[], b)
    ensures k in TouchAll(map[], a) ==>
      var c, d := TouchAll(map[], a)[k], TouchAll(map[], b)[k];
      c.open == d.open && c.answered == d.answered && c.lastTsMs == d.lastTsMs
  {
    HalfOrder(a, b, k);
    HalfOrder(b, a, k);
  }

  lemma HalfOrder(a: seq<Stored>, b: seq<Stored>, k: Key)
    requires multiset(Recs(a)) == multiset(Recs(b))
    ensures k in TouchAll(map[], a) ==> k in TouchAll(map[], b)
    ensures k in TouchAll(map[], a) ==>
      var c, d := TouchAll(map[], a)[k], TouchAll(map[], b)[k];
      && (c.open == 0 ==> d.open == 0) && (c.answered == 1 ==> d.answered == 1) && c.lastTsMs <= d.lastTsMs
      && (c.open == 0 || c.open == 1) && (c.answered == 0 || c.answered == 1)
  {
    if k in TouchAll(map[], a) {
      RowMeaning(a, k);
      var c := TouchAll(map[], a)[k];
      var last :| InCall(a, k, last) && last.rec.tsMs == c.lastTsMs;
      SameMembers(a, b, k, last);
      ClosedForm(b, k);
      OfCallMembers(b, k);
      RowMeaning(b, k);
      if c.open == 0 {
        var x :| InCall(a, k, x) && Closes(x.rec);
        SameMembers(a, b, k, x);
      }
      if c.answered == 1 {
        var x :| InCall(a, k, x) && Answers(x.rec);
        SameMembers(a, b, k, x);
      }
    }
  }

  // ----- but it does for the first-seen columns -----

  lemma {:induction false} OfCallStarts(x: Stored, t: seq<Stored>, k: Key)
    requires x.rec.callId != "" && KeyOf(x.rec) == k
    ensures OfCall([x] + t, k) != [] && OfCall([x] + t, k)[0] == x
  {
    var rows := [x] + t;
    if t == [] {
      assert rows[..0] == [] && OfCall(rows, k) == OfCall(rows[..0], k) + [x];
    } else {
      OfCallStarts(x, t[..|t| - 1], k);
      assert rows[..|t|] == [x] + t[..|t| - 1];
    }
  }

  /** `rows` with its record `j` processed first. */
  function WithFirst(rows: seq<Stored>, j: nat): seq<Stored>
    requires j < |rows|
  {
    [rows[j]] + (rows[..j] + rows[j + 1..])
  }

  lemma WithFirstReorders(rows: seq<Stored>, j: nat)
    requires j < |rows|
    ensures multiset(Recs(WithFirst(rows, j))) == multiset(Recs(rows))
  {
    var rs := Recs(rows);
    Without(rs, j);
    assert Recs(WithFirst(rows, j)) == [rs[j]] + (rs[..j] + rs[j + 1..]);
  }

  /** first_ts of a call is the timestamp of its first record in processing order. */
  lemma FirstSeen(rows: seq<Stored>, k: Key)
    requires k in TouchAll(map[], rows)
    ensures OfCall(rows, k) != [] && TouchAll(map[], rows)[k].firstTsMs == OfCall(rows, k)[0].rec.tsMs
  {
    ClosedForm(rows, k);
  }

  ghost predicate OneInstant(rows: seq<Stored>, k: Key) {
    forall x, y :: InCall(rows, k, x) && InCall(rows, k, y) ==> x.rec.tsMs == y.rec.tsMs
  }

  /** The row of `k` exists with the same first_ts whichever of the two lists is processed. */
  predicate SameFirstSeen(a: seq<Stored>, b: seq<Stored>, k: Key)
    requires k in TouchAll(map[], a)
  {
    k in TouchAll(map[], b) && TouchAll(map[], b)[k].firstTsMs == TouchAll(map[], a)[k].firstTsMs
  }

  lemma OneInstantSeen(a: seq<Stored>, b: seq<Stored>, k: Key)
    requires k in TouchAll(map[], a) && multiset(Recs(a)) == multiset(Recs(b)) && OneInstant(a, k)
    ensures SameFirstSeen(a, b, k)
  {
    OrderIndependent(a, b, k);
    FirstSeen(a, k);
    FirstSeen(b, k);
    OfCallMembers(a, k);
    OfCallMembers(b, k);
    var x, y := OfCall(a, k)[0], OfCall(b, k)[0];
    assert InCall(a, k, x) && InCall(b, k, y);
    SameMembers(b, a, k, y);
  }

  lemma {:induction false} OtherFirst(rows: seq<Stored>, k: Key) returns (b: seq<Stored>)
    requires k in TouchAll(map[], rows) && !OneInstant(rows, k)
    ensures multiset(Recs(b)) == multiset(Recs(rows)) && !SameFirstSeen(rows, b, k)
  {
    FirstSeen(rows, k);
    var x, y :| InCall(rows, k, x) && InCall(rows, k, y) && x.rec.tsMs != y.rec.tsMs;
    var z := if x.rec.tsMs != OfCall(rows, k)[0].rec.tsMs then x else y;
    var j :| 0 <= j < |rows| && rows[j] == z;
    b := WithFirst(rows, j);
    WithFirstReorders(rows, j);
    OfCallStarts(rows[j], rows[..j] + rows[j + 1..], k);
    OrderIndependent(rows, b, k);
    FirstSeen(b, k);
  }

  /**
   first_ts is of the first record processed, not the earliest: it is the same for every order of the records
   exactly when all records of the call have one timestamp.
   */
  lemma FirstSeenDependsOnOrder(rows: seq<Stored>, k: Key)
    requires k in TouchAll(map[], rows)
    ensures (forall b :: multiset(Recs(b)) == multiset(Recs(rows)) ==> SameFirstSeen(rows, b, k)) <==> OneInstant(rows, k)
  {
    if OneInstant(rows, k) {
      forall b | multiset(Recs(b)) == multiset(Recs(rows)) ensures SameFirstSeen(rows, b, k) {
        OneInstantSeen(rows, b, k);
      }
    } else {
      var b := OtherFirst(rows, k);
    }
  }
}
