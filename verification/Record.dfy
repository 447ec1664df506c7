/** The capture record (core-go/sip.go, core-go/db.go): printed as JSON by the workers, read back by the writer. */
module Record {
  import opened Text
  import opened Json
  import opened CallState

  /** The JSON names of a record. */
  datatype Column =
    TsMs | Src | Dst | Transport | Proto | Agent | Kind | Method | Status | Ruri | CallId | From | To | CSeq
    | HepNodeId | HepNode | HepCid | Size | RawB64

  /** Every column, in the order in which they are printed. */
  const ORDER := [TsMs, Src, Dst, Transport, Proto, Agent, Kind, Method, Status, Ruri, CallId, From, To, CSeq,
                  HepNodeId, HepNode, HepCid, Size, RawB64]

  function KeyText(c: Column): string {
    match c
    case TsMs => "ts_ms" case Src => "src" case Dst => "dst" case Transport => "transport" case Proto => "proto"
    case Agent => "agent" case Kind => "kind" case Method => "method" case Status => "status" case Ruri => "ruri"
    case CallId => "call_id" case From => "from" case To => "to" case CSeq => "cseq"
    case HepNodeId => "hep_node_id" case HepNode => "hep_node" case HepCid => "hep_cid"
    case Size => "size" case RawB64 => "raw_b64"
  }

  /** The names by which the reader knows the columns, which are its own. */
  function TagOf(c: Column): string {
    match c
    case TsMs => "ts_ms" case Src => "src" case Dst => "dst" case Transport => "transport" case Proto => "proto"
    case Agent => "agent" case Kind => "kind" case Method => "method" case Status => "status" case CallId => "call_id"
    case From => "from" case To => "to" case CSeq => "cseq" case Ruri => "ruri"
    case HepNodeId => "hep_node_id" case HepNode => "hep_node" case HepCid => "hep_cid"
    case Size => "size" case RawB64 => "raw_b64"
  }

  lemma TagsAreKeys(c: Column)
    ensures TagOf(c) == KeyText(c)
  {
  }

  /** Columns left out of the text when they have nothing to say. */
  predicate Optional(c: Column) {
    c in [Ruri, CallId, From, To, CSeq, HepNodeId, HepNode, HepCid]
  }

  predicate IsNumber(c: Column) {
    c == TsMs || c == Status || c == HepNodeId || c == Size
  }

  function Cell(r: CaptureRecord, c: Column): (v: Value)
    ensures v.Num? <==> IsNumber(c)
  {
    match c
    case TsMs => Num(r.tsMs) case Src => Str(r.src) case Dst => Str(r.dst) case Transport => Str(r.transport)
    case Proto => Str(r.proto) case Agent => Str(r.agent) case Kind => Str(r.kind) case Method => Str(r.method_)
    case Status => Num(r.status) case Ruri => Str(r.ruri) case CallId => Str(r.callId) case From => Str(r.from)
    case To => Str(r.to) case CSeq => Str(r.cseq) case HepNodeId => Num(r.hepNodeId) case HepNode => Str(r.hepNode)
    case HepCid => Str(r.hepCid) case Size => Num(r.size) case RawB64 => Str(r.rawB64)
  }

  function SetText(r: CaptureRecord, c: Column, s: string): CaptureRecord
    requires !IsNumber(c)
  {
    match c
    case Src => r.(src := s) case Dst => r.(dst := s) case Transport => r.(transport := s) case Proto => r.(proto := s)
    case Agent => r.(agent := s) case Kind => r.(kind := s) case Method => r.(method_ := s) case Ruri => r.(ruri := s)
    case CallId => r.(callId := s) case From => r.(from := s) case To => r.(to := s) case CSeq => r.(cseq := s)
    case HepNode => r.(hepNode := s) case HepCid => r.(hepCid := s) case RawB64 => r.(rawB64 := s)
  }

  function SetNumber(r: CaptureRecord, c: Column, n: int): CaptureRecord
    requires IsNumber(c)
  {
    match c
    case TsMs => r.(tsMs := n) case Status => r.(status := n) case HepNodeId => r.(hepNodeId := n) case Size => r.(size := n)
  }

  predicate InRange(r: CaptureRecord) {
    Int64(r.tsMs) && Int64(r.status) && Int64(r.hepNodeId) && Int64(r.size)
  }

  // ----- reading -----

  const EMPTY := CaptureRecord(0, "", "", "", "", "", "", "", 0, "", "", "", "", "", 0, "", "", 0, "")

  function ColumnAmong(cs: seq<Column>, key: string): Option<Column> {
    if cs == [] then None else if TagOf(cs[0]) == key then Some(cs[0]) else ColumnAmong(cs[1..], key)
  }

  /** Assigning a value to a field fails when the kinds differ or the number has more than 64 bits. */
  function SetCell(r: CaptureRecord, c: Column, v: Value): Option<CaptureRecord> {
    match v
    case Str(s) => if IsNumber(c) then None else Some(SetText(r, c, s))
    case Num(n) => if !IsNumber(c) || !Int64(n) then None else Some(SetNumber(r, c, n))
  }

  /** Members in turn; a name that is no column is skipped. */
  function Decode(r: CaptureRecord, ms: seq<Member>): Option<CaptureRecord>
    decreases |ms|
  {
    if ms == [] then Some(r)
    else
      match ColumnAmong(ORDER, ms[0].key)
      case None => Decode(r, ms[1..])
      case Some(c) =>
        match SetCell(r, c, ms[0].value)
        case None => None
        case Some(next) => Decode(next, ms[1..])
  }

  function ReadRecord(json: string): Option<CaptureRecord> {
    match ParseObject(json)
    case None => None
    case Some(ms) => Decode(EMPTY, ms)
  }

  // ----- printing -----

  /** Zero or the empty string. */
  predicate Nothing(v: Value) {
    v == Num(0) || v == Str("")
  }

  function Shown(r: CaptureRecord, cs: seq<Column>): seq<Member> {
    if cs == [] then []
    else
      var c := cs[|cs| - 1];
      Shown(r, cs[..|cs| - 1])
      + if Optional(c) && Nothing(Cell(r, c)) then [] else [Member(KeyText(c), Cell(r, c))]
  }

  lemma {:induction false} FirstShown(r: CaptureRecord, cs: seq<Column>)
    requires cs != [] && !Optional(cs[0])
    ensures Shown(r, cs) != []
  {
    if |cs| > 1 {
      FirstShown(r, cs[..|cs| - 1]);
    }
  }

  function RecordText(r: CaptureRecord): string {
    FirstShown(r, ORDER);
    Print(Shown(r, ORDER))
  }

  // ----- what is printed reads back -----

  lemma {:induction false} ColumnFound(cs: seq<Column>, c: Column)
    requires c in cs
    ensures ColumnAmong(cs, KeyText(c)) == Some(c)
  {
    if KeyText(cs[0]) != KeyText(c) {
      ColumnFound(cs[1..], c);
    }
  }

  /** Setting a cell sets that cell and no other. */
  lemma SetOneCell(r: CaptureRecord, c: Column, v: Value)
    requires SetCell(r, c, v).Some?
    ensures forall d :: Cell(SetCell(r, c, v).value, d) == if d == c then v else Cell(r, d)
  {
  }

  lemma SameHead(a: CaptureRecord, b: CaptureRecord)
    requires Cell(a, TsMs) == Cell(b, TsMs) && Cell(a, Src) == Cell(b, Src) && Cell(a, Dst) == Cell(b, Dst)
    requires Cell(a, Transport) == Cell(b, Transport) && Cell(a, Proto) == Cell(b, Proto) && Cell(a, Agent) == Cell(b, Agent)
    ensures a.tsMs == b.tsMs && a.src == b.src && a.dst == b.dst && a.transport == b.transport && a.proto == b.proto && a.agent == b.agent
  {
  }

  lemma SameMiddle(a: CaptureRecord, b: CaptureRecord)
    requires Cell(a, Kind) == Cell(b, Kind) && Cell(a, Method) == Cell(b, Method) && Cell(a, Status) == Cell(b, Status)
    requires Cell(a, Ruri) == Cell(b, Ruri) && Cell(a, CallId) == Cell(b, CallId) && Cell(a, From) == Cell(b, From) && Cell(a, To) == Cell(b, To)
    ensures a.kind == b.kind && a.method_ == b.method_ && a.status == b.status && a.ruri == b.ruri && a.callId == b.callId && a.from == b.from && a.to == b.to
  {
  }

  lemma SameTail(a: CaptureRecord, b: CaptureRecord)
    requires Cell(a, CSeq) == Cell(b, CSeq) && Cell(a, HepNodeId) == Cell(b, HepNodeId) && Cell(a, HepNode) == Cell(b, HepNode)
    requires Cell(a, HepCid) == Cell(b, HepCid) && Cell(a, Size) == Cell(b, Size) && Cell(a, RawB64) == Cell(b, RawB64)
    ensures a.cseq == b.cseq && a.hepNodeId == b.hepNodeId && a.hepNode == b.hepNode && a.hepCid == b.hepCid && a.size == b.size && a.rawB64 == b.rawB64
  {
  }

  lemma SameCells(a: CaptureRecord, b: CaptureRecord)
    requires forall c :: Cell(a, c) == Cell(b, c)
    ensures a == b
  {
    SameHead(a, b);
    SameMiddle(a, b);
    SameTail(a, b);
  }

  lemma {:induction false} DecodeSnoc(r: CaptureRecord, ms: seq<Member>, m: Member)
    ensures Decode(r, ms + [m]) == match Decode(r, ms) case None => None case Some(next) => Decode(next, [m])
    decreases |ms|
  {
    if ms == [] {
      assert ms + [m] == [m];
    } else {
      assert (ms + [m])[1..] == ms[1..] + [m];
      match ColumnAmong(ORDER, ms[0].key) {
        case None => DecodeSnoc(r, ms[1..], m);
        case Some(c) =>
          match SetCell(r, c, ms[0].value) {
            case None =>
            case Some(next) => DecodeSnoc(next, ms[1..], m);
          }
      }
    }
  }

  /** The cells of `a` are those of `r` for the columns in `cs`, and empty elsewhere. */
  ghost predicate Copied(a: CaptureRecord, r: CaptureRecord, cs: seq<Column>) {
    forall c :: (c in cs ==> Cell(a, c) == Cell(r, c)) && (c !in cs ==> Nothing(Cell(a, c)))
  }

  lemma DecodeOne(a: CaptureRecord, c: Column, v: Value)
    requires SetCell(a, c, v).Some?
    ensures Decode(a, [Member(KeyText(c), v)]) == SetCell(a, c, v)
  {
    ColumnFound(ORDER, c);
    assert [Member(KeyText(c), v)][1..] == [];
  }

  lemma CopyCell(a: CaptureRecord, r: CaptureRecord, cs: seq<Column>, c: Column)
    requires Copied(a, r, cs) && c !in cs && InRange(r)
    ensures
      var next := SetCell(a, c, Cell(r, c));
      next.Some? && Copied(next.value, r, cs + [c])
  {
    SetOneCell(a, c, Cell(r, c));
  }

  predicate Distinct(cs: seq<Column>) {
    forall i, j :: 0 <= i < j < |cs| ==> cs[i] != cs[j]
  }

  lemma {:induction false} ShownDecodes(r: CaptureRecord, cs: seq<Column>)
    requires Distinct(cs) && InRange(r)
    ensures Decode(EMPTY, Shown(r, cs)).Some? && Copied(Decode(EMPTY, Shown(r, cs)).value, r, cs)
  {
    if cs == [] {
    } else {
      var front, c := cs[..|cs| - 1], cs[|cs| - 1];
      ShownDecodes(r, front);
      assert cs == front + [c];
      var a := Decode(EMPTY, Shown(r, front)).value;
      if Optional(c) && Nothing(Cell(r, c)) {
        assert Shown(r, cs) == Shown(r, front);
      } else {
        CopyCell(a, r, front, c);
        DecodeOne(a, c, Cell(r, c));
        DecodeSnoc(EMPTY, Shown(r, front), Member(KeyText(c), Cell(r, c)));
      }
    }
  }

  lemma OrderDistinct()
    ensures Distinct(ORDER)
  {
    forall i, j | 0 <= i < j < |ORDER| ensures ORDER[i] != ORDER[j] {
    }
  }

  lemma OrderComplete(c: Column)
    ensures c in ORDER
  {
  }

  /** The writer reads back exactly the record whose text was printed. */
  lemma RecordRoundTrip(r: CaptureRecord)
    requires InRange(r)
    ensures ReadRecord(RecordText(r)) == Some(r)
  {
    hide Decode, Shown, Cell;
    FirstShown(r, ORDER);
    PrintedParses(Shown(r, ORDER));
    OrderDistinct();
    ShownDecodes(r, ORDER);
    var a := Decode(EMPTY, Shown(r, ORDER)).value;
    forall c ensures c in ORDER {
      OrderComplete(c);
    }
    SameCells(a, r);
  }
}
