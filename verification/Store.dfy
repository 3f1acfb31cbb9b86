/** The tables as one object, changed in place by the calls of the two services. */
module Store {
  import opened Records
  import opened NetBuilding
  import opened NetMerging
  import opened Passes
  import opened Grouping
  import opened Pipeline
  import opened Builds
  import opened IdText
  import opened Hierarchy

  /** A full read: every key once, in whatever order the table yields. */
  method ReadAll<T(==, !new)>(keys: set<T>) returns (order: seq<T>)
    ensures Lists(order, keys)
  {
    order := [];
    var left := keys;
    while left != {}
      invariant left <= keys && Lists(order, keys - left)
      decreases left
    {
      var k :| k in left;
      ListsMore(order, keys - left, k);
      assert keys - (left - {k}) == keys - left + {k};
      order, left := order + [k], left - {k};
    }
    assert keys - left == keys;
  }

  lemma ListsMore<T(!new)>(order: seq<T>, keys: set<T>, k: T)
    requires Lists(order, keys) && k !in keys
    ensures Lists(order + [k], keys + {k})
  {
    assert forall i :: 0 <= i < |order| ==> order[i] in order;
  }

  datatype Tally = Tally(created: nat, collapsed: nat, skipped: nat)

  datatype Alerts = Alerts(newlyDetected: nat, pendingCount: nat, candidates: map<Pair, Candidate>)

  class Tables {
    var source: map<ReportKey, Record>
    var nets: map<int, NetRow>
    var history: map<HistKey, HistRow>
    var ledger: map<Pair, Candidate>

    constructor ()
      ensures St() == State(map[], map[], map[], map[])
    {
      source, nets, history, ledger := map[], map[], map[], map[];
    }

    ghost function St(): State
      reads this
    {
      State(source, nets, history, ledger)
    }

    /* ---------------------------------------------------------------- building */

    /** Deletes the rows that are gone, then upserts every row; `deleted` is what was removed. */
    method SyncBuildingTable(hier: seq<HierRow>, now: int, ghost picks: seq<Member>) returns (deleted: set<int>)
      requires Emitted(hier, picks)
      modifies this`nets
      ensures nets == TableOf(picks, now)
      ensures deleted == old(nets).Keys - TableOf(picks, now).Keys
    {
      var rows := ToTableRows(hier, now, picks);
      var newIds := set i | 0 <= i < |rows| :: rows[i].0;
      RowIdsAreTableIds(rows, picks, now);
      deleted := nets.Keys - newIds;
      nets := nets - deleted;
      ghost var kept := nets;
      UpsertRows(rows, now, picks);
      PlusCovers(kept, TableOf(picks, now));
    }

    method UpsertRows(rows: seq<(int, NetRow)>, now: int, ghost picks: seq<Member>)
      requires RowsOf(rows, picks, now)
      modifies this`nets
      ensures nets == old(nets) + TableOf(picks, now)
    {
      for i := 0 to |rows|
        invariant nets == old(nets) + TableOf(picks[..i], now)
      {
        TableOfNext(picks, i, now);
        PlusUpdate(old(nets), TableOf(picks[..i], now), rows[i].0, rows[i].1);
        nets := nets[rows[i].0 := rows[i].1];
      }
      assert picks[..|picks|] == picks;
    }

    method AppendHistory(log: seq<Entry>, now: int)
      modifies this`history
      ensures history == Logged(old(history), log, now)
    {
      for i := 0 to |log|
        invariant history == Logged(old(history), log[..i], now)
      {
        assert log[..i + 1][..i] == log[..i];
        history := history[KeyOf(log[i], now) := RowOf(log[i])];
      }
      assert log[..|log|] == log;
    }

    /** One build.  The tables end as `Build` says, no net row is ever deleted, and the tally counts what
        the pass did with each report. */
    method RunPipeline(pad: real, now: int)
      returns (tally: Tally, deleted: set<int>, ghost netOrder: seq<int>, ghost srcOrder: seq<ReportKey>)
      modifies this
      ensures ReadOrders(old(St()), netOrder, srcOrder)
      ensures St() == Build(old(St()), netOrder, srcOrder, pad, now)
      ensures Counts(tally, BuildPass(old(St()), netOrder, srcOrder, pad))
      ensures deleted == {}
    {
      var ids := ReadAll(nets.Keys);
      var keys := ReadAll(source.Keys);
      netOrder, srcOrder := ids, keys;
      if |keys| == 0 && |ids| == 0 {
        tally, deleted := Tally(0, 0, 0), {};
        return;
      }
      ghost var was := St();
      var members, log;
      tally, members, log := FoldReports(ids, keys, pad);
      BuildIsPass(was, ids, keys, pad, now);
      NothingDeleted(was, ids, keys, pad, now);
      deleted := WriteBack(members.rows, log, now);
    }

    /** The hierarchy of the working table, synced to the nets, and the log, appended to the history. */
    method WriteBack(rows: seq<Member>, log: seq<Entry>, now: int) returns (deleted: set<int>)
      requires DistinctIds(rows)
      modifies this`nets, this`history
      ensures nets == TableOf(rows, now) && history == Logged(old(history), log, now)
      ensures deleted == old(nets).Keys - TableOf(rows, now).Keys
    {
      var kept := DedupRdfsPerNet(rows);
      DedupKeepsAll(rows, kept);
      var hier := BuildHierarchical(kept);
      ghost var picks := OutputTable(rows, kept, hier, now);
      deleted := SyncBuildingTable(hier, now, picks);
      AppendHistory(log, now);
    }

    /** The loop over the source rows, on a working copy of the nets. */
    method FoldReports(ids: seq<int>, keys: seq<ReportKey>, pad: real)
      returns (tally: Tally, members: Members, log: seq<Entry>)
      requires Lists(ids, nets.Keys) && Lists(keys, source.Keys)
      ensures fresh(members)
      ensures var p := BuildPass(St(), ids, keys, pad);
              members.rows == p.rows && log == p.log && Counts(tally, p)
    {
      members := new Members(LoadRows(nets, ids));
      tally, log := RouteAll(members, keys, HistorySigs(history), |history| > 0, pad);
    }

    /** Each source row in turn. */
    method RouteAll(members: Members, keys: seq<ReportKey>, known: set<Signature>, guarded: bool, pad: real)
      returns (tally: Tally, log: seq<Entry>)
      requires forall k :: k in keys ==> k in source
      modifies members
      ensures var p := RunPass(Pass(old(members.rows), known, [], 0), Reports(source, keys), guarded, pad);
              members.rows == p.rows && log == p.log && Counts(tally, p)
    {
      ghost var reports := Reports(source, keys);
      ghost var start := Pass(members.rows, known, [], 0);
      var seen := known;
      log, tally := [], Tally(0, 0, 0);
      for i := 0 to |keys|
        invariant Pass(members.rows, seen, log, tally.skipped) == RunPass(start, reports[..i], guarded, pad)
        invariant tally.created == Created(log) && tally.collapsed == |log| - Created(log)
      {
        RunPassNext(start, reports, i, guarded, pad);
        assert keys[i] in keys;
        seen, log, tally := FoldReport(members, source[keys[i]], guarded, pad, seen, log, tally);
      }
      assert reports[..|keys|] == reports;
    }

    /* ----------------------------------------------------------------- merging */

    /** Records every proposable pair that the ledger does not have yet.  A pair that cannot be compared
        raises before anything is written (`None`). */
    method DetectNewCandidates(cfg: MergeConfig, now: int) returns (inserted: Option<nat>)
      requires Symmetric(cfg)
      modifies this`ledger
      ensures ledger == Detect(old(St()), cfg, now).ledger
      ensures inserted.None? <==> DetectRaises(nets, cfg)
      ensures inserted.Some? ==> inserted.value == |ledger| - |old(ledger)|
    {
      ghost var was := St();
      var order := ReadAll(nets.Keys);
      var rows := NetRows(nets, order, Columns(nets));
      NetRowsRaise(nets, order, cfg);
      var found := ProposePairs(rows, cfg);
      if found.None? {
        return None;
      }
      NetRowsPropose(nets, order, cfg, found.value);
      var count := RecordCandidates(found.value, cfg, now);
      RecordedAll(was, cfg, now, found.value, ledger);
      inserted := Some(count);
    }

    /** The insert loop; `seen` is the ledger as it was before the first insert. */
    method RecordCandidates(list: seq<Proposal>, cfg: MergeConfig, now: int) returns (count: nat)
      requires ListsProposals(nets, cfg, list)
      modifies this`ledger
      ensures Recorded(old(St()), cfg, now, list, ledger)
      ensures count == |ledger| - |old(ledger)|
    {
      ghost var was := St();
      var seen := ledger.Keys;
      count := 0;
      for i := 0 to |list|
        invariant nets == was.nets
        invariant Recorded(was, cfg, now, list[..i], ledger)
        invariant count == |ledger| - |was.ledger|
      {
        var p := PairOf(list[i]);
        RecordedMore(was, cfg, now, list, i, ledger);
        if p in seen {
          continue;
        }
        OneMore(ledger, p, NewCandidate(nets, cfg, p, now));
        ledger := ledger[p := NewCandidate(nets, cfg, p, now)];
        count := count + 1;
      }
      assert list[..|list|] == list;
    }

    /** The alert queue: detect first, then every row still pending, with how many are new and how many wait. */
    method ListPendingCandidates(cfg: MergeConfig, now: int) returns (alerts: Option<Alerts>)
      requires Symmetric(cfg)
      modifies this`ledger
      ensures ledger == Detect(old(St()), cfg, now).ledger
      ensures alerts.None? <==> DetectRaises(nets, cfg)
      ensures alerts.Some? ==>
                && alerts.value.newlyDetected == |ledger| - |old(ledger)|
                && alerts.value.pendingCount == |alerts.value.candidates|
                && (forall p :: p in alerts.value.candidates <==> p in ledger && ledger[p].status.Pending?)
                && (forall p :: p in alerts.value.candidates ==> alerts.value.candidates[p] == ledger[p])
    {
      var inserted := DetectNewCandidates(cfg, now);
      if inserted.None? {
        return None;
      }
      var pending := map p | p in ledger && ledger[p].status.Pending? :: ledger[p];
      alerts := Some(Alerts(inserted.value, |pending|, pending));
    }

    /** One decision.  An approval moves the rows of the higher group one by one. */
    method ApplyDecision(a: int, b: int, decision: string, now: int) returns (outcome: Outcome, ghost order: seq<int>)
      modifies this`nets, this`ledger
      ensures Lists(order, old(nets).Keys)
      ensures (St(), outcome) == Decide(old(St()), a, b, decision, order, now)
    {
      var ids := ReadAll(nets.Keys);
      order := ids;
      var p := Ordered(a, b);
      if decision != "approve" && decision != "reject" {
        return Failed(BadDecision), order;
      }
      if p !in ledger {
        return Failed(NoCandidate), order;
      }
      var candidate := ledger[p];
      if !candidate.status.Pending? {
        return Failed(AlreadyDecided(candidate.status)), order;
      }
      if decision == "reject" {
        ledger := ledger[p := candidate.(status := Rejected, decidedAt := Some(now))];
        return Noted, order;
      }
      if p.0 !in nets || p.1 !in nets {
        return Failed(MissingNet), order;
      }
      var myA, myB := nets[p.0].myNet, nets[p.1].myNet;
      if myA == myB {
        ledger := ledger[p := candidate.(status := Approved, decidedAt := Some(now))];
        return Merged(myA, None, 0), order;
      }
      var survivor, absorbed := if myA < myB then myA else myB, if myA < myB then myB else myA;
      var moved := FindGroup(nets, ids, absorbed, FIND_LIMIT);
      MoveRows(moved, survivor, now);
      ledger := ledger[p := candidate.(status := Approved, decidedAt := Some(now))];
      outcome := Merged(survivor, Some(absorbed), |moved|);
    }

    method MoveRows(ids: seq<int>, myNet: int, now: int)
      modifies this`nets
      ensures nets == Relabelled(old(nets), ids, myNet, now)
    {
      RelabelNone(nets, myNet, now);
      for i := 0 to |ids|
        invariant nets == Relabelled(old(nets), ids[..i], myNet, now)
      {
        RelabelOne(old(nets), ids, i, myNet, now);
        if ids[i] in nets {
          nets := nets[ids[i] := nets[ids[i]].(myNet := myNet, updatedAt := now)];
        }
      }
      assert ids[..|ids|] == ids;
    }
  }

  /** The rows are those of `picks`, ids as integers again. */
  ghost predicate RowsOf(rows: seq<(int, NetRow)>, picks: seq<Member>, now: int) {
    && |rows| == |picks|
    && forall i :: 0 <= i < |picks| ==> rows[i] == (picks[i].netId, NetRow(picks[i].myNet, picks[i].rec, now))
  }

  lemma EmitReadsBack(m: Member)
    ensures ParseInt(Emit(m).systemNet) == Some(m.netId) && ParseInt(Emit(m).myNet) == Some(m.myNet)
  {
    IdsRoundTrip(m.netId);
    IdsRoundTrip(m.myNet);
  }

  lemma RowsOfMore(rows: seq<(int, NetRow)>, picks: seq<Member>, i: nat, now: int)
    requires i < |picks| && RowsOf(rows, picks[..i], now)
    ensures RowsOf(rows + [(picks[i].netId, NetRow(picks[i].myNet, picks[i].rec, now))], picks[..i + 1], now)
  {
    assert picks[..i + 1] == picks[..i] + [picks[i]];
  }

  method ToTableRows(hier: seq<HierRow>, now: int, ghost picks: seq<Member>) returns (rows: seq<(int, NetRow)>)
    requires Emitted(hier, picks)
    ensures RowsOf(rows, picks, now)
  {
    rows := [];
    for i := 0 to |hier|
      invariant RowsOf(rows, picks[..i], now)
    {
      assert hier[i] == Emit(picks[i]);
      EmitReadsBack(picks[i]);
      RowsOfMore(rows, picks, i, now);
      rows := rows + [(ParseInt(hier[i].systemNet).value, NetRow(ParseInt(hier[i].myNet).value, hier[i].rec, now))];
    }
    assert picks[..|hier|] == picks;
  }

  lemma RowIdsAreTableIds(rows: seq<(int, NetRow)>, picks: seq<Member>, now: int)
    requires RowsOf(rows, picks, now)
    ensures (set i | 0 <= i < |rows| :: rows[i].0) == TableOf(picks, now).Keys
  {
    var ids := set i | 0 <= i < |rows| :: rows[i].0;
    forall id | id in TableOf(picks, now)
      ensures id in ids
    {
      var i := TableSource(picks, now, id);
      assert rows[i].0 == id;
    }
    forall id | id in ids
      ensures id in TableOf(picks, now)
    {
      var i :| 0 <= i < |rows| && rows[i].0 == id;
      TableHasEach(picks, now, i);
    }
  }

  lemma {:induction false} TableHasEach(rows: seq<Member>, now: int, i: nat)
    requires i < |rows|
    ensures rows[i].netId in TableOf(rows, now)
  {
    if i < |rows| - 1 {
      TableHasEach(rows[..|rows| - 1], now, i);
    }
  }

  ghost predicate Counts(tally: Tally, p: Pass) {
    tally == Tally(Created(p.log), |p.log| - Created(p.log), p.skipped)
  }

  /** One turn of the loop: skip a seen report, or route it, append its net if it is new, and log it. */
  method FoldReport(members: Members, report: Record, guarded: bool, pad: real, seen: set<Signature>, log: seq<Entry>,
                    tally: Tally)
    returns (seen': set<Signature>, log': seq<Entry>, tally': Tally)
    requires tally.created == Created(log) && tally.collapsed == |log| - Created(log)
    modifies members
    ensures Pass(members.rows, seen', log', tally'.skipped) ==
            StepPass(Pass(old(members.rows), seen, log, tally.skipped), report, guarded, pad)
    ensures tally'.created == Created(log') && tally'.collapsed == |log'| - Created(log')
  {
    seen', log', tally' := seen, log, tally;
    if guarded {
      if Sig(report) in seen {
        tally' := tally.(skipped := tally.skipped + 1);
        return;
      }
      seen' := seen + {Sig(report)};
    }
    var a := members.AssignNet(report, pad);
    if !a.collapsed {
      members.Append(Member(a.netId, a.myNet, report, RecordBand(report)));
    }
    log' := log + [Entry(report, a.netId, a.myNet, a.collapsed, a.survivor)];
    assert log'[..|log|] == log;
    tally' := if a.collapsed then tally.(collapsed := tally.collapsed + 1) else tally.(created := tally.created + 1);
  }

  lemma TableOfNext(rows: seq<Member>, i: nat, now: int)
    requires i < |rows|
    ensures TableOf(rows[..i + 1], now) ==
            TableOf(rows[..i], now)[rows[i].netId := NetRow(rows[i].myNet, rows[i].rec, now)]
  {
    assert rows[..i + 1][..i] == rows[..i];
  }

  lemma RunPassNext(p: Pass, reports: seq<Record>, i: nat, guarded: bool, pad: real)
    requires i < |reports|
    ensures RunPass(p, reports[..i + 1], guarded, pad) ==
            StepPass(RunPass(p, reports[..i], guarded, pad), reports[i], guarded, pad)
  {
    assert reports[..i + 1][..i] == reports[..i];
  }

  lemma PlusUpdate<K, V>(a: map<K, V>, b: map<K, V>, k: K, v: V)
    ensures (a + b)[k := v] == a + b[k := v]
  {
  }

  lemma PlusCovers<K, V>(a: map<K, V>, b: map<K, V>)
    requires a.Keys <= b.Keys
    ensures a + b == b
  {
  }

  lemma OutputTable(rows: seq<Member>, kept: seq<Member>, hier: seq<HierRow>, now: int) returns (picks: seq<Member>)
    requires DistinctIds(rows) && DistinctIds(kept) && (forall m :: m in kept <==> m in rows) && IsOutput(kept, hier)
    ensures Emitted(hier, picks) && TableOf(picks, now) == TableOf(rows, now)
  {
    picks :| Emitted(hier, picks) && IsHierarchy(kept, picks);
    HierarchyKeepsAll(kept, picks);
    SameRowsSameTable(picks, rows, now);
  }

  /** Two listings of the same rows make the same table. */
  lemma SameRowsSameTable(a: seq<Member>, b: seq<Member>, now: int)
    requires DistinctIds(a) && DistinctIds(b) && forall m :: m in a <==> m in b
    ensures TableOf(a, now) == TableOf(b, now)
  {
    forall id
      ensures id in TableOf(a, now) <==> id in TableOf(b, now)
      ensures id in TableOf(a, now) ==> TableOf(a, now)[id] == TableOf(b, now)[id]
    {
      if id in TableOf(a, now) {
        RowInBoth(a, b, now, id);
      } else if id in TableOf(b, now) {
        RowInBoth(b, a, now, id);
      }
    }
    assert TableOf(a, now).Keys == TableOf(b, now).Keys;
    SameMap(TableOf(a, now), TableOf(b, now));
  }

  lemma RowInBoth(a: seq<Member>, b: seq<Member>, now: int, id: int)
    requires DistinctIds(a) && DistinctIds(b) && forall m :: m in a ==> m in b
    requires id in TableOf(a, now)
    ensures id in TableOf(b, now) && TableOf(a, now)[id] == TableOf(b, now)[id]
  {
    var i := TableSource(a, now, id);
    TableHolds(a, now, i);
    assert a[i] in b;
    var j :| 0 <= j < |b| && b[j] == a[i];
    TableHolds(b, now, j);
  }

  lemma NothingDeleted(s: State, netOrder: seq<int>, srcOrder: seq<ReportKey>, pad: real, now: int)
    requires ReadOrders(s, netOrder, srcOrder)
    ensures s.nets.Keys - TableOf(BuildPass(s, netOrder, srcOrder, pad).rows, now).Keys == {}
  {
    BuildIsPass(s, netOrder, srcOrder, pad, now);
    BuildGrowsFresh(s, netOrder, srcOrder, pad, now);
  }

  /* -------------------------------------------------------- detection, row by row */

  /** The loaded frame, in read order. */
  function NetRows(nets: map<int, NetRow>, order: seq<int>, c: Numeric): (rows: seq<Net>)
    requires forall id :: id in order ==> id in nets
    ensures |rows| == |order|
    ensures forall i :: 0 <= i < |order| ==>
              (order[i] in nets && rows[i] == Net(order[i], nets[order[i]].myNet, FrameRecord(nets[order[i]].rec, c)))
  {
    if |order| == 0 then []
    else
      var last := order[|order| - 1];
      assert forall id :: id in order[..|order| - 1] ==> id in order;
      NetRows(nets, order[..|order| - 1], c) + [Net(last, nets[last].myNet, FrameRecord(nets[last].rec, c))]
  }

  lemma PairRaises(nets: map<int, NetRow>, order: seq<int>, c: Numeric, cfg: MergeConfig, a: int, b: int)
    requires Lists(order, nets.Keys) && Symmetric(cfg)
    requires a in nets && b in nets && nets[a].myNet != nets[b].myNet
    requires Raises(FrameRecord(nets[a].rec, c), FrameRecord(nets[b].rec, c), cfg)
    ensures ScanRaises(NetRows(nets, order, c), cfg)
  {
    var rows := NetRows(nets, order, c);
    var i :| 0 <= i < |order| && order[i] == a;
    var j :| 0 <= j < |order| && order[j] == b;
    SameNetSymmetric(rows[i].rec, rows[j].rec, cfg);
    if i < j {
      assert rows[i].myNet != rows[j].myNet && Raises(rows[i].rec, rows[j].rec, cfg);
    } else {
      assert rows[j].myNet != rows[i].myNet && Raises(rows[j].rec, rows[i].rec, cfg);
    }
  }

  /** The scan raises on the listed rows exactly when some cross-group pair of the table cannot be compared. */
  lemma NetRowsRaise(nets: map<int, NetRow>, order: seq<int>, cfg: MergeConfig)
    requires Lists(order, nets.Keys) && Symmetric(cfg)
    ensures DistinctNets(NetRows(nets, order, Columns(nets)))
    ensures ScanRaises(NetRows(nets, order, Columns(nets)), cfg) <==> DetectRaises(nets, cfg)
  {
    if DetectRaises(nets, cfg) {
      var c := Columns(nets);
      var a, b :| a in nets && b in nets && nets[a].myNet != nets[b].myNet
                  && Raises(FrameRecord(nets[a].rec, c), FrameRecord(nets[b].rec, c), cfg);
      PairRaises(nets, order, c, cfg, a, b);
    }
  }

  function PairOf(q: Proposal): Pair { (q.lo, q.hi) }

  lemma OneMore<K, V>(m: map<K, V>, k: K, v: V)
    requires k !in m
    ensures |m[k := v]| == |m| + 1
  {
    assert m[k := v].Keys == m.Keys + {k};
  }

  ghost predicate ListsProposals(nets: map<int, NetRow>, cfg: MergeConfig, list: seq<Proposal>) {
    && (forall k :: 0 <= k < |list| ==> Proposes(nets, cfg, PairOf(list[k])))
    && (forall p :: Proposes(nets, cfg, p) ==> exists k :: 0 <= k < |list| && PairOf(list[k]) == p)
    && (forall k, l :: 0 <= k < l < |list| ==> PairOf(list[k]) != PairOf(list[l]))
  }

  lemma ProposalProposes(nets: map<int, NetRow>, order: seq<int>, cfg: MergeConfig, p: Proposal)
    requires Lists(order, nets.Keys) && Symmetric(cfg) && IsProposed(NetRows(nets, order, Columns(nets)), cfg, p)
    ensures Proposes(nets, cfg, (p.lo, p.hi))
    ensures p.reasons == MatchReasons(nets[p.lo].rec, nets[p.hi].rec, cfg)
  {
    var rows := NetRows(nets, order, Columns(nets));
    var i, j :| ProposedAt(rows, cfg, i, j, p);
    SameNetSymmetric(rows[i].rec, rows[j].rec, cfg);
    FrameKeepsTest(nets[p.lo].rec, nets[p.hi].rec, Columns(nets), cfg);
  }

  lemma CandidateIsListed(rows: seq<Net>, cfg: MergeConfig, list: seq<Proposal>, i: nat, j: nat)
    requires ListsCandidates(rows, cfg, list) && i < j < |rows| && IsCandidate(rows[i], rows[j], cfg)
    ensures exists k :: 0 <= k < |list| && PairOf(list[k]) == Ordered(rows[i].netId, rows[j].netId)
  {
    var q := ProposalOf(rows[i], rows[j], cfg);
    assert q in list;
    var k :| 0 <= k < |list| && list[k] == q;
    assert PairOf(list[k]) == Ordered(rows[i].netId, rows[j].netId);
  }

  lemma PlaceOf<T(!new)>(order: seq<T>, keys: set<T>, x: T) returns (i: nat)
    requires Lists(order, keys) && x in keys
    ensures i < |order| && order[i] == x
  {
    i :| 0 <= i < |order| && order[i] == x;
  }

  lemma ProposesIsCandidate(nets: map<int, NetRow>, cfg: MergeConfig, p: Pair, a: Net, b: Net)
    requires Symmetric(cfg) && Proposes(nets, cfg, p)
    requires var c := Columns(nets);
             && a == Net(p.0, nets[p.0].myNet, FrameRecord(nets[p.0].rec, c))
             && b == Net(p.1, nets[p.1].myNet, FrameRecord(nets[p.1].rec, c))
    ensures a != b && IsCandidate(a, b, cfg) && IsCandidate(b, a, cfg)
    ensures Ordered(a.netId, b.netId) == p && Ordered(b.netId, a.netId) == p
  {
    FrameKeepsTest(nets[p.0].rec, nets[p.1].rec, Columns(nets), cfg);
    SameNetSymmetric(a.rec, b.rec, cfg);
  }

  lemma ProposedIsListed(nets: map<int, NetRow>, order: seq<int>, cfg: MergeConfig, list: seq<Proposal>, p: Pair)
    requires Lists(order, nets.Keys) && Symmetric(cfg)
             && ListsCandidates(NetRows(nets, order, Columns(nets)), cfg, list)
    requires Proposes(nets, cfg, p)
    ensures exists k :: 0 <= k < |list| && PairOf(list[k]) == p
  {
    var rows := NetRows(nets, order, Columns(nets));
    var i := PlaceOf(order, nets.Keys, p.0);
    var j := PlaceOf(order, nets.Keys, p.1);
    ProposesIsCandidate(nets, cfg, p, rows[i], rows[j]);
    CandidateIsListed(rows, cfg, list, if i < j then i else j, if i < j then j else i);
  }

  /** Whatever the read order, the scan lists the proposable pairs of the table, each once. */
  lemma NetRowsPropose(nets: map<int, NetRow>, order: seq<int>, cfg: MergeConfig, list: seq<Proposal>)
    requires Lists(order, nets.Keys) && Symmetric(cfg)
             && ListsCandidates(NetRows(nets, order, Columns(nets)), cfg, list)
    ensures ListsProposals(nets, cfg, list)
  {
    forall k | 0 <= k < |list|
      ensures Proposes(nets, cfg, PairOf(list[k]))
    {
      ProposalProposes(nets, order, cfg, list[k]);
    }
    forall p | Proposes(nets, cfg, p)
      ensures exists k :: 0 <= k < |list| && PairOf(list[k]) == p
    {
      ProposedIsListed(nets, order, cfg, list, p);
    }
  }

  /** `ledger` is the old ledger with a new row for each pair of `list` that it did not have. */
  ghost predicate Recorded(was: State, cfg: MergeConfig, now: int, list: seq<Proposal>, ledger: map<Pair, Candidate>) {
    && (forall k :: 0 <= k < |list| ==> PairOf(list[k]) in ledger)
    && (forall p :: p in was.ledger ==> p in ledger && ledger[p] == was.ledger[p])
    && (forall p :: p in ledger && p !in was.ledger ==>
          Proposes(was.nets, cfg, p) && ledger[p] == NewCandidate(was.nets, cfg, p, now) &&
          exists k :: 0 <= k < |list| && PairOf(list[k]) == p)
  }

  lemma RecordedOld(was: State, cfg: MergeConfig, now: int, list: seq<Proposal>, q: Proposal,
                    ledger: map<Pair, Candidate>)
    requires Recorded(was, cfg, now, list, ledger) && PairOf(q) in was.ledger
    ensures Recorded(was, cfg, now, list + [q], ledger)
  {
    var more := list + [q];
    assert forall k :: 0 <= k < |list| ==> more[k] == list[k];
  }

  lemma RecordedNew(was: State, cfg: MergeConfig, now: int, list: seq<Proposal>, q: Proposal,
                    ledger: map<Pair, Candidate>)
    requires Recorded(was, cfg, now, list, ledger) && PairOf(q) !in was.ledger && Proposes(was.nets, cfg, PairOf(q))
    ensures Recorded(was, cfg, now, list + [q], ledger[PairOf(q) := NewCandidate(was.nets, cfg, PairOf(q), now)])
  {
    var more := list + [q];
    assert forall k :: 0 <= k < |list| ==> more[k] == list[k];
    assert more[|list|] == q;
  }

  lemma RecordedMore(was: State, cfg: MergeConfig, now: int, list: seq<Proposal>, i: nat, ledger: map<Pair, Candidate>)
    requires i < |list| && ListsProposals(was.nets, cfg, list) && Recorded(was, cfg, now, list[..i], ledger)
    ensures var p := PairOf(list[i]);
            && Proposes(was.nets, cfg, p)
            && (if p in was.ledger then Recorded(was, cfg, now, list[..i + 1], ledger)
                else
                  && p !in ledger
                  && Recorded(was, cfg, now, list[..i + 1], ledger[p := NewCandidate(was.nets, cfg, p, now)]))
  {
    assert list[..i + 1] == list[..i] + [list[i]];
    assert forall k :: 0 <= k < i ==> PairOf(list[..i][k]) == PairOf(list[k]) != PairOf(list[i]);
    if PairOf(list[i]) in was.ledger {
      RecordedOld(was, cfg, now, list[..i], list[i], ledger);
    } else {
      RecordedNew(was, cfg, now, list[..i], list[i], ledger);
    }
  }

  lemma RecordedAll(was: State, cfg: MergeConfig, now: int, list: seq<Proposal>, ledger: map<Pair, Candidate>)
    requires !DetectRaises(was.nets, cfg)
    requires ListsProposals(was.nets, cfg, list) && Recorded(was, cfg, now, list, ledger)
    ensures ledger == Detect(was, cfg, now).ledger
  {
    var want := Detect(was, cfg, now).ledger;
    forall p
      ensures p in ledger <==> p in want
      ensures p in ledger ==> ledger[p] == want[p]
    {
      assert p == (p.0, p.1);
      if p in want && p !in was.ledger {
        assert Proposes(was.nets, cfg, p);
      }
    }
    assert ledger.Keys == want.Keys;
    SameMap(ledger, want);
  }

  /* ------------------------------------------------------------- moving a group */

  lemma RelabelNone(nets: map<int, NetRow>, myNet: int, now: int)
    ensures Relabelled(nets, [], myNet, now) == nets
  {
    SameMap(Relabelled(nets, [], myNet, now), nets);
  }

  lemma RelabelOne(nets: map<int, NetRow>, ids: seq<int>, i: nat, myNet: int, now: int)
    requires i < |ids|
    ensures var part := Relabelled(nets, ids[..i], myNet, now);
            Relabelled(nets, ids[..i + 1], myNet, now) ==
              if ids[i] in part then part[ids[i] := part[ids[i]].(myNet := myNet, updatedAt := now)] else part
  {
    var part, more := Relabelled(nets, ids[..i], myNet, now), Relabelled(nets, ids[..i + 1], myNet, now);
    assert ids[..i + 1] == ids[..i] + [ids[i]];
    var want := if ids[i] in part then part[ids[i] := part[ids[i]].(myNet := myNet, updatedAt := now)] else part;
    assert more.Keys == want.Keys;
    forall id | id in more
      ensures more[id] == want[id]
    {
    }
    SameMap(more, want);
  }
}
