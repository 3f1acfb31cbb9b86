/** The whole system: runs of source changes, builds, detections and decisions from empty tables. */
module Machine {
  import opened Records
  import opened Folding
  import opened NetBuilding
  import opened NetMerging
  import opened Passes
  import opened Grouping
  import opened Pipeline
  import opened Builds
  import opened Decisions

  /** One call; `netOrder` and `srcOrder` are the orders in which the call reads the tables. */
  datatype Event =
    | ChangeSource(source: map<ReportKey, Record>)
    | RunBuild(netOrder: seq<int>, srcOrder: seq<ReportKey>, pad: real, now: int)
    | RunDetect(cfg: MergeConfig, now: int)
    | RunDecide(a: int, b: int, decision: string, netOrder: seq<int>, now: int)

  /** The tables, with a record of the past that the code does not keep: the label each net was created
      with, every report ever folded into it, and how many approvals merged two groups. */
  datatype World = World(st: State, births: map<int, int>, folds: map<int, seq<Record>>, merges: nat)

  const EMPTY := World(State(map[], map[], map[], map[]), map[], map[], 0)

  ghost predicate ValidEvent(s: State, ev: Event) {
    match ev
    case ChangeSource(source) => SourceOk(source)
    case RunBuild(netOrder, srcOrder, _, _) => ReadOrders(s, netOrder, srcOrder)
    case RunDetect(_, _) => true
    case RunDecide(_, _, _, netOrder, _) => Lists(netOrder, s.nets.Keys)
  }

  function FoldsAfter(folds: map<int, seq<Record>>, nets: map<int, NetRow>, log: seq<Entry>): map<int, seq<Record>> {
    map id | id in nets :: (if id in folds then folds[id] else []) + Folded(log, id)
  }

  ghost function Apply(w: World, ev: Event): World
    requires ValidEvent(w.st, ev)
  {
    match ev
    case ChangeSource(source) => w.(st := w.st.(source := source))
    case RunBuild(netOrder, srcOrder, pad, now) =>
      var st' := Build(w.st, netOrder, srcOrder, pad, now);
      w.(st := st',
         births := Born(w.births, Labels(st'.nets)),
         folds := FoldsAfter(w.folds, st'.nets, BuildPass(w.st, netOrder, srcOrder, pad).log))
    case RunDetect(cfg, now) => w.(st := Detect(w.st, cfg, now))
    case RunDecide(a, b, decision, netOrder, now) =>
      w.(st := Decide(w.st, a, b, decision, netOrder, now).0,
         merges := w.merges + (if Merges(w.st, a, b, decision) then 1 else 0))
  }

  ghost predicate ValidRun(w: World, run: seq<Event>)
    decreases |run|
  {
    |run| == 0 || (ValidEvent(w.st, run[0]) && ValidRun(Apply(w, run[0]), run[1..]))
  }

  ghost function Exec(w: World, run: seq<Event>): World
    requires ValidRun(w, run)
    decreases |run|
  {
    if |run| == 0 then w else Exec(Apply(w, run[0]), run[1..])
  }

  /** No approval in the run absorbs a group larger than the row limit of the read. */
  ghost predicate RunFits(w: World, run: seq<Event>)
    requires ValidRun(w, run)
    decreases |run|
  {
    |run| == 0 ||
    ((run[0].RunDecide? ==> FitsLimit(w.st, run[0].a, run[0].b, run[0].decision))
        && RunFits(Apply(w, run[0]), run[1..]))
  }

  /* ----------------------------------------------------------- ids and ledger */

  ghost predicate HasId(rows: seq<Member>, id: int) {
    exists i :: 0 <= i < |rows| && rows[i].netId == id
  }

  ghost predicate IdsInRange(rows: seq<Member>) {
    forall id :: HasId(rows, id) <==> SYSTEM_NET_START <= id < SYSTEM_NET_START + |rows|
  }

  lemma StepIdsInRange(rows: seq<Member>, report: Record, pad: real)
    requires IdsInRange(rows)
    ensures IdsInRange(StepRows(rows, report, pad))
  {
    var rows' := StepRows(rows, report, pad);
    if Route(rows, report, pad).Some? {
      assert forall i :: 0 <= i < |rows| ==> rows'[i].netId == rows[i].netId;
      assert forall id :: HasId(rows', id) <==> HasId(rows, id);
    } else {
      var next := NextNetId(rows);
      if |rows| > 0 {
        assert HasId(rows, next - 1) && HasId(rows, SYSTEM_NET_START + |rows| - 1);
      }
      assert rows'[|rows|].netId == next == SYSTEM_NET_START + |rows|;
      forall id
        ensures HasId(rows', id) <==> HasId(rows, id) || id == next
      {
        if HasId(rows, id) {
          var i :| 0 <= i < |rows| && rows[i].netId == id;
          assert rows'[i].netId == id;
        }
      }
    }
  }

  lemma {:induction false} PassIdsInRange(p: Pass, reports: seq<Record>, guarded: bool, pad: real)
    requires IdsInRange(p.rows)
    ensures IdsInRange(RunPass(p, reports, guarded, pad).rows)
  {
    if |reports| > 0 {
      var front := reports[..|reports| - 1];
      PassIdsInRange(p, front, guarded, pad);
      StepIdsInRange(RunPass(p, front, guarded, pad).rows, reports[|reports| - 1], pad);
    }
  }

  /** The net ids are 100001, 100002, ... without a gap. */
  ghost predicate IdsExact(nets: map<int, NetRow>) {
    forall id :: id in nets <==> SYSTEM_NET_START <= id < SYSTEM_NET_START + |nets|
  }

  lemma LoadedIdsInRange(nets: map<int, NetRow>, order: seq<int>)
    requires Lists(order, nets.Keys) && IdsExact(nets)
    ensures IdsInRange(LoadRows(nets, order))
  {
    var rows := LoadRows(nets, order);
    ListingSize(order, nets.Keys);
    forall id
      ensures HasId(rows, id) <==> id in nets
    {
      if id in nets {
        var i :| 0 <= i < |order| && order[i] == id;
        assert rows[i].netId == id;
      }
    }
  }

  lemma TableHasId(rows: seq<Member>, now: int, id: int)
    requires DistinctIds(rows)
    ensures id in TableOf(rows, now) <==> HasId(rows, id)
  {
    if id in TableOf(rows, now) {
      var i := TableSource(rows, now, id);
    } else if HasId(rows, id) {
      var i :| 0 <= i < |rows| && rows[i].netId == id;
      TableHolds(rows, now, i);
    }
  }

  lemma TableIdsExact(rows: seq<Member>, now: int)
    requires DistinctIds(rows) && IdsInRange(rows)
    ensures IdsExact(TableOf(rows, now))
  {
    TableSize(rows, now);
    forall id
      ensures id in TableOf(rows, now) <==> SYSTEM_NET_START <= id < SYSTEM_NET_START + |rows|
    {
      TableHasId(rows, now, id);
    }
  }

  lemma BuildIdsExact(s: State, netOrder: seq<int>, srcOrder: seq<ReportKey>, pad: real, now: int)
    requires ReadOrders(s, netOrder, srcOrder) && IdsExact(s.nets)
    ensures IdsExact(Build(s, netOrder, srcOrder, pad, now).nets)
  {
    BuildIsPass(s, netOrder, srcOrder, pad, now);
    LoadedIdsInRange(s.nets, netOrder);
    PassIdsInRange(Pass(LoadRows(s.nets, netOrder), HistorySigs(s.history), [], 0), Reports(s.source, srcOrder),
        |s.history| > 0, pad);
    TableIdsExact(BuildPass(s, netOrder, srcOrder, pad).rows, now);
  }

  /** Recorded pairs are pairs of existing nets, lower id first. */
  ghost predicate LedgerOk(s: State) {
    forall p :: p in s.ledger ==> p.0 < p.1 && p.0 in s.nets && p.1 in s.nets
  }

  ghost predicate TablesOk(s: State) {
    SourceOk(s.source) && IdsExact(s.nets) && LedgerOk(s)
  }

  lemma StepTablesOk(w: World, ev: Event)
    requires ValidEvent(w.st, ev) && TablesOk(w.st)
    ensures TablesOk(Apply(w, ev).st)
    ensures w.st.nets.Keys <= Apply(w, ev).st.nets.Keys
  {
    match ev
    case ChangeSource(source) =>
    case RunBuild(netOrder, srcOrder, pad, now) =>
      BuildIdsExact(w.st, netOrder, srcOrder, pad, now);
      BuildGrowsFresh(w.st, netOrder, srcOrder, pad, now);
    case RunDetect(cfg, now) =>
    case RunDecide(a, b, decision, netOrder, now) =>
      DecideLabels(w.st, a, b, decision, netOrder, now);
      DecideKeepsLedger(w.st, a, b, decision, netOrder, now);
      SameIds(w.st.nets, Apply(w, ev).st.nets);
  }

  lemma SameIds(nets: map<int, NetRow>, nets': map<int, NetRow>)
    requires IdsExact(nets) && nets'.Keys == nets.Keys
    ensures IdsExact(nets')
  {
    assert |nets'.Keys| == |nets.Keys|;
  }

  /** In every reachable state the net ids are exactly 100001 to 100000 + n, every ledger pair names
      two existing nets, and so no accepted approval finds a net missing. */
  lemma {:induction false} ReachableTables(w: World, run: seq<Event>)
    requires TablesOk(w.st) && ValidRun(w, run)
    ensures TablesOk(Exec(w, run).st)
    ensures w.st.nets.Keys <= Exec(w, run).st.nets.Keys
    ensures forall p, decision :: Refusal(Exec(w, run).st, p, decision) != Some(MissingNet)
    decreases |run|
  {
    if |run| > 0 {
      StepTablesOk(w, run[0]);
      ReachableTables(Apply(w, run[0]), run[1..]);
    }
  }

  /* ------------------------------------------------------------------- groups */

  ghost predicate GroupsExact(w: World) {
    Grouped(Labels(w.st.nets), w.births, ApprovedPairs(w.st.ledger))
  }

  lemma DecideGroups(w: World, a: int, b: int, decision: string, order: seq<int>, now: int)
    requires Lists(order, w.st.nets.Keys) && LedgerOk(w.st) && GroupsExact(w)
    requires FitsLimit(w.st, a, b, decision)
    ensures var s' := Decide(w.st, a, b, decision, order, now).0;
            Grouped(Labels(s'.nets), w.births, ApprovedPairs(s'.ledger))
  {
    var s, p := w.st, Ordered(a, b);
    DecideLabels(s, a, b, decision, order, now);
    if Refusal(s, p, decision).None? {
      ApprovedAfterMark(s, p, if decision == "reject" then Rejected else Approved, now);
      if Merges(s, a, b, decision) {
        JoinKeepsGrouped(Labels(s.nets), w.births, ApprovedPairs(s.ledger), p.0, p.1, Lower(s.nets, p),
            Higher(s.nets, p));
      } else if decision == "approve" {
        EdgeKeepsGrouped(Labels(s.nets), w.births, ApprovedPairs(s.ledger), p.0, p.1);
      }
    }
  }

  lemma DetectKeepsApproved(s: State, cfg: MergeConfig, now: int)
    ensures ApprovedPairs(Detect(s, cfg, now).ledger) == ApprovedPairs(s.ledger)
  {
    DetectKeepsLedger(s, cfg, now);
    var now', was := Detect(s, cfg, now).ledger, s.ledger;
    assert forall p :: p in now' && p !in was ==> now'[p].status.Pending?;
  }

  lemma StepGroups(w: World, ev: Event)
    requires ValidEvent(w.st, ev) && LedgerOk(w.st) && GroupsExact(w)
    requires ev.RunDecide? ==> FitsLimit(w.st, ev.a, ev.b, ev.decision)
    ensures GroupsExact(Apply(w, ev))
  {
    match ev
    case ChangeSource(source) =>
    case RunBuild(netOrder, srcOrder, pad, now) =>
      BuildGrowsFresh(w.st, netOrder, srcOrder, pad, now);
      GrowKeepsGrouped(Labels(w.st.nets), w.births, ApprovedPairs(w.st.ledger),
          Labels(Build(w.st, netOrder, srcOrder, pad, now).nets));
    case RunDetect(cfg, now) =>
      DetectKeepsApproved(w.st, cfg, now);
    case RunDecide(a, b, decision, netOrder, now) =>
      DecideGroups(w, a, b, decision, netOrder, now);
  }

  lemma {:induction false} ReachableGroups(w: World, run: seq<Event>)
    requires TablesOk(w.st) && GroupsExact(w) && ValidRun(w, run) && RunFits(w, run)
    ensures GroupsExact(Exec(w, run))
    decreases |run|
  {
    if |run| > 0 {
      StepTablesOk(w, run[0]);
      StepGroups(w, run[0]);
      ReachableGroups(Apply(w, run[0]), run[1..]);
    }
  }

  lemma EmptyIsExact()
    ensures TablesOk(EMPTY.st) && GroupsExact(EMPTY)
  {
  }

  /** After any run from empty tables, two nets share `my_net_id` exactly when a chain of approved pairs
      joins them, and the shared id is the one that batch connected components would give: the lowest
      birth id of the component. */
  lemma GroupsAreComponents(run: seq<Event>, x: int, y: int)
    requires ValidRun(EMPTY, run) && RunFits(EMPTY, run)
    requires x in Exec(EMPTY, run).st.nets
    ensures var w := Exec(EMPTY, run);
            && (SameLabel(Labels(w.st.nets), x, y) <==> Connected(ApprovedPairs(w.st.ledger), x, y))
            && IsBatchLabel(w.births, ApprovedPairs(w.st.ledger), x, w.st.nets[x].myNet)
  {
    EmptyIsExact();
    ReachableGroups(EMPTY, run);
    var w := Exec(EMPTY, run);
    SharedIffConnected(Labels(w.st.nets), w.births, ApprovedPairs(w.st.ledger), x, y);
    LabelIsBatchLabel(Labels(w.st.nets), w.births, ApprovedPairs(w.st.ledger), x);
  }

  predicate NoBuild(run: seq<Event>) {
    forall i :: 0 <= i < |run| ==> !run[i].RunBuild?
  }

  lemma {:induction false} BirthsKept(w: World, run: seq<Event>)
    requires ValidRun(w, run) && NoBuild(run)
    ensures Exec(w, run).births == w.births
    decreases |run|
  {
    if |run| > 0 {
      assert run[0] in run;
      BirthsKept(Apply(w, run[0]), run[1..]);
    }
  }

  /** From any reachable state, two ways of working through the ledger that end with the same approved
      pairs end with the same labels, whatever the order. */
  lemma ApprovalOrderIrrelevant(run: seq<Event>, one: seq<Event>, other: seq<Event>)
    requires ValidRun(EMPTY, run) && RunFits(EMPTY, run)
    requires var w := Exec(EMPTY, run);
             && ValidRun(w, one) && RunFits(w, one) && NoBuild(one)
             && ValidRun(w, other) && RunFits(w, other) && NoBuild(other)
             && ApprovedPairs(Exec(w, one).st.ledger) == ApprovedPairs(Exec(w, other).st.ledger)
    ensures var w := Exec(EMPTY, run);
            Labels(Exec(w, one).st.nets) == Labels(Exec(w, other).st.nets)
  {
    EmptyIsExact();
    ReachableTables(EMPTY, run);
    ReachableGroups(EMPTY, run);
    var w := Exec(EMPTY, run);
    ReachableGroups(w, one);
    ReachableGroups(w, other);
    BirthsKept(w, one);
    BirthsKept(w, other);
    var w1, w2 := Exec(w, one), Exec(w, other);
    LabelsDetermined(Labels(w1.st.nets), Labels(w2.st.nets), w.births, ApprovedPairs(w1.st.ledger));
  }

  /* ---------------------------------------------------------------- net records */

  /** The record of a net is the fold of every report ever routed to it; all of them come from its
      station; and a net without a station has only the report that created it. */
  ghost predicate NetExact(w: World, id: int)
    requires id in w.st.nets && id in w.folds
  {
    var rec, all := w.st.nets[id].rec, w.folds[id];
    && |all| > 0 && rec == FoldAll(all)
    && (forall k :: 0 <= k < |all| ==> all[k].rdfs == rec.rdfs)
    && (rec.rdfs.None? ==> |all| == 1)
  }

  ghost predicate FoldsExact(w: World) {
    w.folds.Keys == w.st.nets.Keys && forall id :: id in w.st.nets ==> NetExact(w, id)
  }

  lemma TraceExtendsFolds(rec: Record, rec': Record, all: seq<Record>, got: seq<Record>)
    requires |all| > 0 && rec == FoldAll(all)
    requires forall k :: 0 <= k < |all| ==> all[k].rdfs == rec.rdfs
    requires rec.rdfs.None? ==> |all| == 1
    requires rec' == FoldAll([rec] + got)
    requires forall k :: 0 <= k < |[rec] + got| ==> ([rec] + got)[k].rdfs == rec'.rdfs
    requires rec'.rdfs.None? ==> |[rec] + got| == 1
    ensures rec' == FoldAll(all + got)
    ensures forall k :: 0 <= k < |all + got| ==> (all + got)[k].rdfs == rec'.rdfs
    ensures rec'.rdfs.None? ==> |all + got| == 1
  {
    FoldAllResumes(all, got);
    assert ([rec] + got)[0] == rec;
    forall k | 0 <= k < |all + got|
      ensures (all + got)[k].rdfs == rec'.rdfs
    {
      if k >= |all| {
        assert (all + got)[k] == ([rec] + got)[k - |all| + 1];
      }
    }
  }

  lemma BuildNetExact(w: World, netOrder: seq<int>, srcOrder: seq<ReportKey>, pad: real, now: int, id: int)
    requires ReadOrders(w.st, netOrder, srcOrder) && FoldsExact(w)
    requires id in Build(w.st, netOrder, srcOrder, pad, now).nets
    ensures NetExact(Apply(w, RunBuild(netOrder, srcOrder, pad, now)), id)
  {
    var nets', log := Build(w.st, netOrder, srcOrder, pad, now).nets, BuildPass(w.st, netOrder, srcOrder, pad).log;
    BuildTracesNet(w.st, netOrder, srcOrder, pad, now, id);
    if id in w.st.nets {
      assert NetExact(w, id);
      TraceExtendsFolds(w.st.nets[id].rec, nets'[id].rec, w.folds[id], Folded(log, id));
    } else {
      assert [] + Folded(log, id) == Folded(log, id);
    }
  }

  lemma StepFolds(w: World, ev: Event)
    requires ValidEvent(w.st, ev) && FoldsExact(w)
    ensures FoldsExact(Apply(w, ev))
  {
    match ev
    case ChangeSource(source) =>
      assert forall id :: id in w.st.nets ==> NetExact(w, id);
    case RunBuild(netOrder, srcOrder, pad, now) =>
      var nets' := Build(w.st, netOrder, srcOrder, pad, now).nets;
      forall id | id in nets'
        ensures NetExact(Apply(w, ev), id)
      {
        BuildNetExact(w, netOrder, srcOrder, pad, now, id);
      }
    case RunDetect(cfg, now) =>
      assert forall id :: id in w.st.nets ==> NetExact(w, id);
    case RunDecide(a, b, decision, netOrder, now) =>
      DecideLabels(w.st, a, b, decision, netOrder, now);
      assert forall id :: id in w.st.nets ==> NetExact(w, id);
  }

  lemma {:induction false} ReachableFolds(w: World, run: seq<Event>)
    requires FoldsExact(w) && ValidRun(w, run)
    ensures FoldsExact(Exec(w, run))
    decreases |run|
  {
    if |run| > 0 {
      StepFolds(w, run[0]);
      ReachableFolds(Apply(w, run[0]), run[1..]);
    }
  }

  /** After any run from empty tables, a net's FTI is the earliest, its LTI the latest and its NTI the
      sum (null as 0) over every report ever folded into it, all of one station, and each other cell is
      that of the last leading report with a value there. */
  lemma NetSummarisesItsReports(run: seq<Event>, id: int, c: Column)
    requires ValidRun(EMPTY, run) && id in Exec(EMPTY, run).st.nets
    ensures var w := Exec(EMPTY, run);
            && id in w.folds
            && var rec, all := w.st.nets[id].rec, w.folds[id];
            && IsEarliestFti(rec.fti, all) && IsLatestLti(rec.lti, all) && Count(rec.nti) == TotalCount(all)
            && (forall i :: Shows(all, c, i) ==> Cell(rec, c) == Cell(all[i], c))
            && (Cell(rec, c).Some? <==> exists i :: Shows(all, c, i))
            && (forall k :: 0 <= k < |all| ==> all[k].rdfs == rec.rdfs)
            && (rec.rdfs.None? ==> |all| == 1)
  {
    ReachableFolds(EMPTY, run);
    var w := Exec(EMPTY, run);
    assert NetExact(w, id);
    FoldAllSummary(w.folds[id]);
    FoldAllCell(w.folds[id], c);
  }

  /* -------------------------------------------------------------------- counts */

  function Groups(labels: map<int, int>): set<int> {
    set x | x in labels :: labels[x]
  }

  ghost predicate CountsExact(w: World) {
    |Groups(Labels(w.st.nets))| + w.merges == |w.st.nets|
  }

  lemma GroupsAddOne(labels: map<int, int>, x: int)
    requires x in labels && forall y :: SameLabel(labels, x, y) ==> x == y
    ensures |Groups(labels)| == |Groups(labels - {x})| + 1
  {
    var less := labels - {x};
    forall l
      ensures l in Groups(labels) <==> l in Groups(less) || l == labels[x]
    {
      if l in Groups(labels) {
        var y :| y in labels && labels[y] == l;
        assert y == x || (y in less && less[y] == l);
      }
    }
    assert Groups(labels) == Groups(less) + {labels[x]};
    if labels[x] in Groups(less) {
      var y :| y in less && less[y] == labels[x];
      assert SameLabel(labels, x, y);
    }
  }

  lemma FreshWithoutOne(labels: map<int, int>, labels': map<int, int>, x: int)
    requires GrowsFresh(labels, labels') && x in labels' && x !in labels
    ensures GrowsFresh(labels, labels' - {x})
  {
    var less := labels' - {x};
    forall a, b | a in less && a !in labels && SameLabel(less, a, b)
      ensures a == b
    {
      assert SameLabel(labels', a, b);
    }
  }

  lemma MapWithout<K, V>(m: map<K, V>, x: K)
    requires x in m
    ensures |m - {x}| == |m| - 1
  {
    assert (m - {x}).Keys == m.Keys - {x};
    assert |m.Keys - {x}| == |m.Keys| - 1;
  }

  lemma SameOrMore<K, V>(m: map<K, V>, more: map<K, V>) returns (x: K)
    requires m.Keys <= more.Keys && m.Keys != more.Keys
    ensures x in more && x !in m
  {
    var added := more.Keys - m.Keys;
    assert more.Keys == m.Keys + added;
    x := AnyOf(added);
  }

  lemma {:induction false} GroupsGrow(labels: map<int, int>, labels': map<int, int>)
    requires GrowsFresh(labels, labels')
    ensures |Groups(labels')| - |labels'| == |Groups(labels)| - |labels|
    decreases |labels'|
  {
    if labels'.Keys == labels.Keys {
      forall x | x in labels
        ensures labels[x] == labels'[x]
      {
      }
      SameMap(labels, labels');
    } else {
      var x := SameOrMore(labels, labels');
      FreshWithoutOne(labels, labels', x);
      MapWithout(labels', x);
      GroupsGrow(labels, labels' - {x});
      GroupsAddOne(labels', x);
    }
  }

  lemma GroupsJoin(labels: map<int, int>, survivor: int, absorbed: int, s: int, a: int)
    requires survivor != absorbed && s in labels && labels[s] == survivor && a in labels && labels[a] == absorbed
    ensures |Groups(Joined(labels, survivor, absorbed))| == |Groups(labels)| - 1
  {
    var joined := Joined(labels, survivor, absorbed);
    forall l
      ensures l in Groups(joined) <==> l in Groups(labels) - {absorbed}
    {
      if l in Groups(labels) - {absorbed} {
        var x :| x in labels && labels[x] == l;
        assert joined[x] == l;
      }
      if l in Groups(joined) {
        var x :| x in joined && joined[x] == l;
        assert l == if labels[x] == absorbed then labels[s] else labels[x];
      }
    }
    assert Groups(joined) == Groups(labels) - {absorbed};
    assert absorbed in Groups(labels);
  }

  lemma BuildCounts(s: State, netOrder: seq<int>, srcOrder: seq<ReportKey>, pad: real, now: int)
    requires ReadOrders(s, netOrder, srcOrder)
    ensures var nets' := Build(s, netOrder, srcOrder, pad, now).nets;
            |Groups(Labels(nets'))| - |nets'| == |Groups(Labels(s.nets))| - |s.nets|
  {
    var nets' := Build(s, netOrder, srcOrder, pad, now).nets;
    BuildGrowsFresh(s, netOrder, srcOrder, pad, now);
    GroupsGrow(Labels(s.nets), Labels(nets'));
    assert |Labels(nets').Keys| == |nets'.Keys| && |Labels(s.nets).Keys| == |s.nets.Keys|;
  }

  lemma StepCounts(w: World, ev: Event)
    requires ValidEvent(w.st, ev) && CountsExact(w)
    requires ev.RunDecide? ==> FitsLimit(w.st, ev.a, ev.b, ev.decision)
    ensures CountsExact(Apply(w, ev))
  {
    match ev
    case ChangeSource(source) =>
    case RunBuild(netOrder, srcOrder, pad, now) =>
      BuildCounts(w.st, netOrder, srcOrder, pad, now);
    case RunDetect(cfg, now) =>
    case RunDecide(a, b, decision, netOrder, now) =>
      var s, p := w.st, Ordered(a, b);
      DecideLabels(s, a, b, decision, netOrder, now);
      assert |Apply(w, ev).st.nets.Keys| == |s.nets.Keys|;
      if Merges(s, a, b, decision) {
        var low, high := if s.nets[p.0].myNet < s.nets[p.1].myNet then p.0 else p.1,
                         if s.nets[p.0].myNet < s.nets[p.1].myNet then p.1 else p.0;
        GroupsJoin(Labels(s.nets), Lower(s.nets, p), Higher(s.nets, p), low, high);
      }
  }

  /** The number of groups is the number of nets ever created less the approvals that merged two groups. */
  lemma {:induction false} GroupsCounted(w: World, run: seq<Event>)
    requires CountsExact(w) && ValidRun(w, run) && RunFits(w, run)
    ensures CountsExact(Exec(w, run))
    decreases |run|
  {
    if |run| > 0 {
      StepCounts(w, run[0]);
      GroupsCounted(Apply(w, run[0]), run[1..]);
    }
  }

  /* -------------------------------------------------------------------- ledger */

  lemma StepLedger(w: World, ev: Event)
    requires ValidEvent(w.st, ev)
    ensures LedgerKept(w.st.ledger, Apply(w, ev).st.ledger)
  {
    match ev
    case ChangeSource(source) =>
    case RunBuild(netOrder, srcOrder, pad, now) =>
    case RunDetect(cfg, now) =>
      DetectKeepsLedger(w.st, cfg, now);
    case RunDecide(a, b, decision, netOrder, now) =>
      DecideKeepsLedger(w.st, a, b, decision, netOrder, now);
  }

  /** Over any run, from any state: no recorded pair disappears, no snapshot changes, and a row once
      decided is never touched again, so a pair leaves the pending list at most once. */
  lemma {:induction false} LedgerLifecycle(w: World, run: seq<Event>)
    requires ValidRun(w, run)
    ensures LedgerKept(w.st.ledger, Exec(w, run).st.ledger)
    decreases |run|
  {
    if |run| > 0 {
      StepLedger(w, run[0]);
      LedgerLifecycle(Apply(w, run[0]), run[1..]);
    }
  }

  /** In every reachable state a pending pair can be decided either way, whichever net is named first, and the
      row then says so. */
  lemma PendingCanBeDecided(run: seq<Event>, a: int, b: int, decision: string, order: seq<int>, now: int, p: Pair)
    requires ValidRun(EMPTY, run) && IsRowFor(p, a, b) && IsPending(Exec(EMPTY, run).st, p)
    requires decision == "approve" || decision == "reject"
    ensures var (s', outcome) := Decide(Exec(EMPTY, run).st, a, b, decision, order, now);
            && !outcome.Failed? && p in s'.ledger && s'.ledger[p].decidedAt == Some(now)
            && s'.ledger[p].status == if decision == "approve" then Approved else Rejected
  {
    EmptyIsExact();
    ReachableTables(EMPTY, run);
    var s := Exec(EMPTY, run).st;
    DecideErrors(s, a, b, decision, order, now, p);
    DecideOnce(s, a, b, decision, order, now, decision, order, now);
    assert Ordered(a, b) == p;
  }

  ghost predicate LedgerJustified(ledger: map<Pair, Candidate>) {
    forall p :: p in ledger ==> Justified(ledger[p])
  }

  lemma StepJustified(w: World, ev: Event)
    requires ValidEvent(w.st, ev) && LedgerJustified(w.st.ledger)
    ensures LedgerJustified(Apply(w, ev).st.ledger)
  {
    match ev
    case ChangeSource(source) =>
    case RunBuild(netOrder, srcOrder, pad, now) =>
    case RunDetect(cfg, now) =>
      DetectJustified(w.st, cfg, now);
    case RunDecide(a, b, decision, netOrder, now) =>
      DecideJustified(w.st, a, b, decision, netOrder, now);
  }

  lemma DecideJustified(s: State, a: int, b: int, decision: string, order: seq<int>, now: int)
    requires LedgerJustified(s.ledger)
    ensures LedgerJustified(Decide(s, a, b, decision, order, now).0.ledger)
  {
    var ledger := Decide(s, a, b, decision, order, now).0.ledger;
    DecideKeepsLedger(s, a, b, decision, order, now);
    forall p | p in ledger
      ensures Justified(ledger[p])
    {
      assert p in s.ledger;
    }
  }

  /** In every reachable state each alert, decided or not, was raised across two groups and passed. */
  lemma {:induction false} AlertsJustified(w: World, run: seq<Event>)
    requires LedgerJustified(w.st.ledger) && ValidRun(w, run)
    ensures LedgerJustified(Exec(w, run).st.ledger)
    decreases |run|
  {
    if |run| > 0 {
      StepJustified(w, run[0]);
      AlertsJustified(Apply(w, run[0]), run[1..]);
    }
  }
}
