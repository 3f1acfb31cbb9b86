/** The four tables and the four things that change them, each as a function from tables to tables. */
module Pipeline {
  import opened Records
  import opened NetBuilding
  import opened NetMerging
  import opened Grouping

  const FIND_LIMIT := 10000

  /** Each table is a map from its primary key. */
  datatype ReportKey = ReportKey(ffId: int, lti: int)
  datatype NetRow = NetRow(myNet: int, rec: Record, updatedAt: int)
  datatype HistKey = HistKey(netId: int, processedAt: int, ffId: Option<int>)
  datatype HistRow = HistRow(report: Record, myNet: int, collapsed: bool, survivor: Option<int>)
  datatype Status = Pending | Approved | Rejected
  datatype Snapshot = Snapshot(
    myNetA: int, myNetB: int, rdfsA: Option<string>, rdfsB: Option<string>,
    frequencyA: Num, frequencyB: Num, ltiA: Option<int>, ltiB: Option<int>,
    reasons: Reasons, detectedAt: int)
  datatype Candidate = Candidate(status: Status, snapshot: Snapshot, decidedAt: Option<int>)

  datatype State = State(
    source: map<ReportKey, Record>,
    nets: map<int, NetRow>,
    history: map<HistKey, HistRow>,
    ledger: map<Pair, Candidate>)

  /** The order in which a full read returns the rows of a table: each key once. */
  ghost predicate Lists<T(!new)>(order: seq<T>, keys: set<T>) {
    && (forall k :: k in order <==> k in keys)
    && (forall i, j :: 0 <= i < j < |order| ==> order[i] != order[j])
  }

  /** The key columns of a stored report are its own FF_ID and LTI. */
  ghost predicate SourceOk(source: map<ReportKey, Record>) {
    forall k :: k in source ==> source[k].ffId == Some(k.ffId) && source[k].lti == Some(k.lti)
  }

  function Labels(nets: map<int, NetRow>): (labels: map<int, int>)
    ensures labels.Keys == nets.Keys
  {
    map id | id in nets :: nets[id].myNet
  }

  function ApprovedPairs(ledger: map<Pair, Candidate>): set<Pair> {
    set p | p in ledger && ledger[p].status.Approved?
  }

  /* -------------------------------------------------------------------- build */

  function LoadRows(nets: map<int, NetRow>, order: seq<int>): (rows: seq<Member>)
    requires forall k :: k in order ==> k in nets
    ensures |rows| == |order|
    ensures forall i :: 0 <= i < |order| ==>
              (order[i] in nets && rows[i] == Member(order[i], nets[order[i]].myNet, nets[order[i]].rec, None))
  {
    if |order| == 0 then []
    else
      var last := order[|order| - 1];
      assert forall k :: k in order[..|order| - 1] ==> k in order;
      LoadRows(nets, order[..|order| - 1]) + [Member(last, nets[last].myNet, nets[last].rec, None)]
  }

  function Reports(source: map<ReportKey, Record>, order: seq<ReportKey>): (reports: seq<Record>)
    requires forall k :: k in order ==> k in source
    ensures |reports| == |order| && forall i :: 0 <= i < |order| ==> reports[i] == source[order[i]]
  {
    if |order| == 0 then []
    else
      assert forall k :: k in order[..|order| - 1] ==> k in order;
      Reports(source, order[..|order| - 1]) + [source[order[|order| - 1]]]
  }

  function HistorySigs(history: map<HistKey, HistRow>): set<Signature> {
    set k | k in history :: Sig(history[k].report)
  }

  /** The pass that a build makes over the source, in the order the tables are read. */
  function BuildPass(s: State, netOrder: seq<int>, srcOrder: seq<ReportKey>, pad: real): Pass
    requires forall k :: k in netOrder ==> k in s.nets
    requires forall k :: k in srcOrder ==> k in s.source
  {
    RunPass(Pass(LoadRows(s.nets, netOrder), HistorySigs(s.history), [], 0),
            Reports(s.source, srcOrder), |s.history| > 0, pad)
  }

  /** Rows upserted one by one. */
  function TableOf(rows: seq<Member>, now: int): map<int, NetRow> {
    if |rows| == 0 then map[]
    else
      var last := rows[|rows| - 1];
      TableOf(rows[..|rows| - 1], now)[last.netId := NetRow(last.myNet, last.rec, now)]
  }

  function KeyOf(e: Entry, now: int): HistKey { HistKey(e.netId, now, e.report.ffId) }

  function RowOf(e: Entry): HistRow { HistRow(e.report, e.myNet, e.collapsed, e.survivor) }

  /** Entries inserted one by one, all with the same timestamp. */
  function Logged(history: map<HistKey, HistRow>, log: seq<Entry>, now: int): map<HistKey, HistRow> {
    if |log| == 0 then history
    else
      var last := log[|log| - 1];
      Logged(history, log[..|log| - 1], now)[KeyOf(last, now) := RowOf(last)]
  }

  function Build(s: State, netOrder: seq<int>, srcOrder: seq<ReportKey>, pad: real, now: int): State
    requires forall k :: k in netOrder ==> k in s.nets
    requires forall k :: k in srcOrder ==> k in s.source
  {
    if |srcOrder| == 0 && |netOrder| == 0 then s
    else
      var p := BuildPass(s, netOrder, srcOrder, pad);
      s.(nets := TableOf(p.rows, now), history := Logged(s.history, p.log, now))
  }

  /* ------------------------------------------------------------------- detect */

  function Columns(nets: map<int, NetRow>): Numeric {
    Numeric(exists id :: id in nets && nets[id].rec.frequency.Val?,
            exists id :: id in nets && nets[id].rec.bandwidth.Val?,
            exists id :: id in nets && nets[id].rec.latitude.Val?,
            exists id :: id in nets && nets[id].rec.longitude.Val?)
  }

  /** The scan over the loaded frame reaches a cross-group pair that it cannot compare. */
  ghost predicate DetectRaises(nets: map<int, NetRow>, cfg: MergeConfig) {
    exists a, b :: a in nets && b in nets && nets[a].myNet != nets[b].myNet
                   && Raises(FrameRecord(nets[a].rec, Columns(nets)), FrameRecord(nets[b].rec, Columns(nets)), cfg)
  }

  predicate Proposes(nets: map<int, NetRow>, cfg: MergeConfig, p: Pair) {
    && p.0 in nets && p.1 in nets && p.0 < p.1
    && nets[p.0].myNet != nets[p.1].myNet && SameNet(nets[p.0].rec, nets[p.1].rec, cfg)
  }

  function NewCandidate(nets: map<int, NetRow>, cfg: MergeConfig, p: Pair, now: int): Candidate
    requires Proposes(nets, cfg, p)
  {
    var a, b := nets[p.0], nets[p.1];
    Candidate(Pending,
              Snapshot(a.myNet, b.myNet, a.rec.rdfs, b.rec.rdfs, a.rec.frequency, b.rec.frequency, a.rec.lti, b.rec.lti,
                       MatchReasons(a.rec, b.rec, cfg), now),
              None)
  }

  /** Every proposed pair not yet in the ledger, as a pending row. */
  function NewCandidates(s: State, cfg: MergeConfig, now: int): map<Pair, Candidate> {
    map a, b | a in s.nets && b in s.nets && Proposes(s.nets, cfg, (a, b)) && (a, b) !in s.ledger ::
      (a, b) := NewCandidate(s.nets, cfg, (a, b), now)
  }

  ghost function Detect(s: State, cfg: MergeConfig, now: int): State {
    if DetectRaises(s.nets, cfg) then s else s.(ledger := s.ledger + NewCandidates(s, cfg, now))
  }

  /* ------------------------------------------------------------------- decide */

  datatype Error = BadDecision | NoCandidate | AlreadyDecided(was: Status) | MissingNet
  datatype Outcome = Failed(error: Error) | Noted | Merged(survivor: int, absorbed: Option<int>, moved: nat)

  /** The first `limit` ids in `order` whose row has `myNet == label`. */
  function FindGroup(nets: map<int, NetRow>, order: seq<int>, group: int, limit: nat): (ids: seq<int>)
    ensures |ids| <= limit
  {
    if |order| == 0 then []
    else
      var front, last := FindGroup(nets, order[..|order| - 1], group, limit), order[|order| - 1];
      if last in nets && nets[last].myNet == group && |front| < limit then front + [last] else front
  }

  function Relabelled(nets: map<int, NetRow>, ids: seq<int>, group: int, now: int): map<int, NetRow> {
    map id | id in nets :: if id in ids then nets[id].(myNet := group, updatedAt := now) else nets[id]
  }

  function Ordered(a: int, b: int): Pair { if a <= b then (a, b) else (b, a) }

  function Mark(s: State, p: Pair, status: Status, now: int): State
    requires p in s.ledger
  {
    s.(ledger := s.ledger[p := s.ledger[p].(status := status, decidedAt := Some(now))])
  }

  /** The checks made before a decision is applied. */
  function Refusal(s: State, p: Pair, decision: string): Option<Error> {
    if decision != "approve" && decision != "reject" then Some(BadDecision)
    else if p !in s.ledger then Some(NoCandidate)
    else if !s.ledger[p].status.Pending? then Some(AlreadyDecided(s.ledger[p].status))
    else if decision == "approve" && (p.0 !in s.nets || p.1 !in s.nets) then Some(MissingNet)
    else None
  }

  function Decide(s: State, a: int, b: int, decision: string, order: seq<int>, now: int): (State, Outcome) {
    var p := Ordered(a, b);
    var refusal := Refusal(s, p, decision);
    if refusal.Some? then (s, Failed(refusal.value))
    else if decision == "reject" then (Mark(s, p, Rejected, now), Noted)
    else
      var myA, myB := s.nets[p.0].myNet, s.nets[p.1].myNet;
      if myA == myB then (Mark(s, p, Approved, now), Merged(myA, None, 0))
      else
        var survivor, absorbed := if myA < myB then myA else myB, if myA < myB then myB else myA;
        var moved := FindGroup(s.nets, order, absorbed, FIND_LIMIT);
        (Mark(s.(nets := Relabelled(s.nets, moved, survivor, now)), p, Approved, now),
         Merged(survivor, Some(absorbed), |moved|))
  }
}
