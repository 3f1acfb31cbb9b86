/** Runs from empty tables in which many stations report and their nets are merged into one group.  The runs
    read each table in one order, picked by `ListingExists`; nothing else is used of it, so they exist for
    every choice of orders.  Each FF_ID has one row here, so the source can be read in any of them. */
module Crowds {
  import opened Records
  import opened IdText
  import opened NetBuilding
  import opened NetMerging
  import opened Grouping
  import opened Pipeline
  import opened Builds
  import opened Decisions
  import opened Convergence
  import opened Machine
  import opened RowLimit
  import opened Runs

  /** One report of station `i`; all agree in frequency, date and position. */
  function CrowdRecord(i: nat): Record {
    Record(Some(i), Val(100.0), Val(10.0), Some(Digits(i)), Val(0.0), Val(0.0), Some(0), Some(0), Some(1), map[])
  }

  lemma StationsDiffer(i: nat, j: nat)
    requires i != j
    ensures CrowdRecord(i).rdfs != CrowdRecord(j).rdfs
  {
    DigitsRoundTrip(i);
    DigitsRoundTrip(j);
  }

  /** Nets 100001, 100002, ... of the first `m` stations, in that order. */
  ghost predicate StationNets(nets: map<int, NetRow>, m: nat) {
    forall id :: (id in nets <==> 100001 <= id <= 100000 + m)
        && (id in nets ==> nets[id].rec == CrowdRecord(id - 100001))
  }

  ghost predicate OwnLabels(labels: map<int, int>) {
    forall id :: id in labels ==> labels[id] == id - 100000
  }

  /** The first `m` stations have reported and been built, each into a net of its own. */
  ghost predicate Crowd(w: World, m: nat, time: int) {
    && StationNets(w.st.nets, m) && OwnLabels(Labels(w.st.nets))
    && w.births == Labels(w.st.nets) && w.st.ledger == map[]
    && Settled(w.st, HistorySigs(w.st.history), time)
    && forall g :: g in HistorySigs(w.st.history) ==> g.ffId.Some? && g.ffId.value < m
  }

  lemma StationUnknown(nets: map<int, NetRow>, m: nat, id: int, pad: real)
    requires StationNets(nets, m) && id in nets
    ensures !Matches(LoadedNet(nets, id), CrowdRecord(m), pad)
  {
    StationsDiffer(id - 100001, m);
  }

  lemma NextIds(nets: map<int, NetRow>, order: seq<int>, m: nat)
    requires Lists(order, nets.Keys) && StationNets(nets, m) && OwnLabels(Labels(nets))
    ensures var rows := LoadRows(nets, order);
            NextNetId(rows) == 100001 + m && NextMyNet(rows) == 1 + m
  {
    var rows := LoadRows(nets, order);
    forall i | 0 <= i < |rows|
      ensures rows[i].netId in nets && rows[i].myNet == rows[i].netId - 100000
    {
      assert order[i] in nets && Labels(nets)[order[i]] == order[i] - 100000;
    }
    if m > 0 {
      var last := 100000 + m;
      assert last in nets;
      var k :| 0 <= k < |order| && order[k] == last;
      assert rows[k].netId == last;
    }
  }

  lemma CrowdRoutes(nets: map<int, NetRow>, order: seq<int>, m: nat, pad: real)
    requires Lists(order, nets.Keys) && StationNets(nets, m) && OwnLabels(Labels(nets))
    ensures EntryFor(LoadRows(nets, order), CrowdRecord(m), pad) ==
            Entry(CrowdRecord(m), 100001 + m, 1 + m, false, None)
  {
    forall id | id in nets
      ensures !Matches(LoadedNet(nets, id), CrowdRecord(m), pad)
    {
      StationUnknown(nets, m, id, pad);
    }
    RoutedNowhere(nets, order, CrowdRecord(m), pad);
    NextIds(nets, order, m);
  }

  lemma StationAdded(nets: map<int, NetRow>, nets': map<int, NetRow>, m: nat, now: int)
    requires StationNets(nets, m)
    requires Routed(nets, nets', Entry(CrowdRecord(m), 100001 + m, 1 + m, false, None), now)
    ensures StationNets(nets', m + 1)
    ensures OwnLabels(Labels(nets)) ==> OwnLabels(Labels(nets'))
  {
    forall id
      ensures id in nets' <==> 100001 <= id <= 100001 + m
      ensures id in nets' ==> nets'[id].rec == CrowdRecord(id - 100001)
    {
      if id in nets && id != 100001 + m {
        assert nets'[id] == nets[id].(updatedAt := now);
      }
    }
    forall id | id in Labels(nets') && OwnLabels(Labels(nets))
      ensures Labels(nets')[id] == id - 100000
    {
      if id != 100001 + m {
        assert nets'[id] == nets[id].(updatedAt := now) && Labels(nets)[id] == nets[id].myNet;
      }
    }
  }

  lemma BornWithLabels(labels: map<int, int>, labels': map<int, int>)
    requires OwnLabels(labels) && OwnLabels(labels')
    ensures Born(labels, labels') == labels'
  {
    var births' := Born(labels, labels');
    forall x | x in births'
      ensures births'[x] == labels'[x]
    {
      assert x in labels ==> labels[x] == x - 100000;
      assert labels'[x] == x - 100000;
    }
    SameMap(births', labels');
  }

  lemma CrowdSigNew(w: World, m: nat, time: int)
    requires Crowd(w, m, time)
    ensures Sig(CrowdRecord(m)) !in HistorySigs(w.st.history)
  {
  }

  lemma CrowdSighted(w: World, w': World, m: nat, time: int, now: int)
    requires Crowd(w, m, time)
    requires Sighted(w, w', CrowdRecord(m), Entry(CrowdRecord(m), 100001 + m, 1 + m, false, None), now)
    requires Settled(w'.st, HistorySigs(w.st.history) + {Sig(CrowdRecord(m))}, now)
    ensures Crowd(w', m + 1, now)
  {
    StationAdded(w.st.nets, w'.st.nets, m, now);
    BornWithLabels(Labels(w.st.nets), Labels(w'.st.nets));
  }

  /** One more station reports. */
  lemma CrowdGrows(run: seq<Event>, m: nat, time: int) returns (more: seq<Event>)
    requires ValidRun(EMPTY, run) && RunFits(EMPTY, run) && Crowd(Exec(EMPTY, run), m, time)
    ensures ValidRun(EMPTY, more) && RunFits(EMPTY, more) && Crowd(Exec(EMPTY, more), m + 1, time + 1)
  {
    var w, r := Exec(EMPTY, run), CrowdRecord(m);
    var netOrder := ListingExists(w.st.nets.Keys);
    var srcOrder := ListingExists(w.st.source[KeyFor(r) := r].Keys);
    CrowdSigNew(w, m, time);
    CrowdRoutes(w.st.nets, netOrder, m, 0.0);
    AppendSight(EMPTY, run, HistorySigs(w.st.history), time, r, netOrder, srcOrder, 0.0, time + 1);
    var (change, build) := Sight(w.st, r, netOrder, srcOrder, 0.0, time + 1);
    more := run + [change] + [build];
    CrowdSighted(w, Exec(EMPTY, more), m, time, time + 1);
  }

  lemma {:induction false} CrowdGathers(m: nat) returns (run: seq<Event>)
    ensures ValidRun(EMPTY, run) && RunFits(EMPTY, run) && Crowd(Exec(EMPTY, run), m, m)
  {
    if m == 0 {
      run := [];
      assert UnseenKeys(EMPTY.st) == {};
    } else {
      var front := CrowdGathers(m - 1);
      run := CrowdGrows(front, m - 1, m - 1);
    }
  }

  /* ------------------------------------------------------- detect and approve */

  lemma CrowdRecordsMatch(i: nat, j: nat, cfg: MergeConfig)
    requires IsDefault(cfg)
    ensures SameNet(CrowdRecord(i), CrowdRecord(j), cfg)
  {
    assert TuneTol(CrowdRecord(i), CrowdRecord(j), cfg) == Some(0.01);
    assert LtiGap(CrowdRecord(i), CrowdRecord(j)) == Some(0.0);
    assert Distance(CrowdRecord(i), CrowdRecord(j), cfg) == Some(0.0);
  }

  lemma CrowdProposes(nets: map<int, NetRow>, m: nat, cfg: MergeConfig, a: int, b: int)
    requires StationNets(nets, m) && OwnLabels(Labels(nets)) && IsDefault(cfg)
    requires 100001 <= a < b <= 100000 + m
    ensures Proposes(nets, cfg, (a, b))
  {
    CrowdRecordsMatch(a - 100001, b - 100001, cfg);
    assert Labels(nets)[a] == a - 100000 && Labels(nets)[b] == b - 100000;
  }

  lemma CrowdDetects(nets: map<int, NetRow>, m: nat, cfg: MergeConfig)
    requires StationNets(nets, m) && m > 0
    ensures !DetectRaises(nets, cfg)
  {
    DetectRaisesIff(nets, cfg);
    assert 100001 in nets;
  }

  /** Every pair of the first `m` nets is on the ledger, and the approvals of 100002 with each net before
      `k` have put those nets into group 2. */
  ghost predicate Stage(w: World, m: nat, k: int) {
    && StationNets(w.st.nets, m)
    && (forall id :: id in w.st.nets ==> w.st.nets[id].myNet == if 100002 <= id < k then 2 else id - 100000)
    && w.births.Keys == w.st.nets.Keys && OwnLabels(w.births)
    && forall a, b :: 100001 <= a < b <= 100000 + m ==>
         (a, b) in w.st.ledger && (a != 100002 || k <= b ==> w.st.ledger[(a, b)].status.Pending?)
  }

  lemma DetectedPair(s: State, cfg: MergeConfig, now: int, a: int, b: int)
    requires !DetectRaises(s.nets, cfg) && Proposes(s.nets, cfg, (a, b)) && s.ledger == map[]
    ensures (a, b) in Detect(s, cfg, now).ledger && Detect(s, cfg, now).ledger[(a, b)].status.Pending?
  {
    DetectIsComplete(s, cfg, now, now);
  }

  lemma CrowdStaged(w: World, m: nat, time: int, cfg: MergeConfig, now: int)
    requires Crowd(w, m, time) && m > 0 && IsDefault(cfg)
    ensures Stage(Apply(w, RunDetect(cfg, now)), m, 100003)
  {
    var w' := Apply(w, RunDetect(cfg, now));
    CrowdDetects(w.st.nets, m, cfg);
    forall a, b | 100001 <= a < b <= 100000 + m
      ensures (a, b) in w'.st.ledger && w'.st.ledger[(a, b)].status.Pending?
    {
      CrowdProposes(w.st.nets, m, cfg, a, b);
      DetectedPair(w.st, cfg, now, a, b);
    }
    assert forall id :: id in w.st.nets ==> Labels(w.st.nets)[id] == id - 100000;
  }

  lemma StageMerges(w: World, m: nat, k: int)
    requires Stage(w, m, k) && 100003 <= k <= 100000 + m
    ensures Merges(w.st, 100002, k, "approve")
    ensures Lower(w.st.nets, (100002, k)) == 2 && Higher(w.st.nets, (100002, k)) == k - 100000
    ensures GroupIds(w.st.nets, k - 100000) == {k}
  {
    assert (100002, k) in w.st.ledger;
    assert 100002 in w.st.nets && k in w.st.nets;
    forall id | id in w.st.nets
      ensures id in GroupIds(w.st.nets, k - 100000) <==> id == k
    {
    }
  }

  lemma StageRelabels(w: World, m: nat, k: int, order: seq<int>, now: int)
    requires Stage(w, m, k) && 100003 <= k <= 100000 + m && Lists(order, w.st.nets.Keys)
    ensures FitsLimit(w.st, 100002, k, "approve")
    ensures var nets' := Decide(w.st, 100002, k, "approve", order, now).0.nets;
            && StationNets(nets', m)
            && nets'.Keys == w.st.nets.Keys
            && forall id :: id in nets' ==> nets'[id].myNet == if 100002 <= id < k + 1 then 2 else id - 100000
  {
    var nets' := Decide(w.st, 100002, k, "approve", order, now).0.nets;
    StageMerges(w, m, k);
    DecideLabels(w.st, 100002, k, "approve", order, now);
    forall id | id in nets'
      ensures nets'[id].myNet == if 100002 <= id < k + 1 then 2 else id - 100000
    {
      assert Labels(nets')[id] == Joined(Labels(w.st.nets), 2, k - 100000)[id];
    }
  }

  lemma StageRecords(w: World, m: nat, k: int, order: seq<int>, now: int)
    requires Stage(w, m, k) && 100003 <= k <= 100000 + m && Lists(order, w.st.nets.Keys)
    ensures var ledger' := Decide(w.st, 100002, k, "approve", order, now).0.ledger;
            forall a, b :: 100001 <= a < b <= 100000 + m ==>
              (a, b) in ledger' && (a != 100002 || k + 1 <= b ==> ledger'[(a, b)].status.Pending?)
  {
    StageMerges(w, m, k);
    DecideOnce(w.st, 100002, k, "approve", order, now, "approve", order, now);
  }

  lemma StageApproved(w: World, m: nat, k: int, order: seq<int>, now: int)
    requires Stage(w, m, k) && 100003 <= k <= 100000 + m && Lists(order, w.st.nets.Keys)
    ensures FitsLimit(w.st, 100002, k, "approve")
    ensures Stage(Apply(w, RunDecide(100002, k, "approve", order, now)), m, k + 1)
  {
    StageRelabels(w, m, k, order, now);
    StageRecords(w, m, k, order, now);
  }

  /** One more net is approved into the group. */
  lemma StageGrows(run: seq<Event>, m: nat, k: int) returns (more: seq<Event>)
    requires ValidRun(EMPTY, run) && RunFits(EMPTY, run) && Stage(Exec(EMPTY, run), m, k) && 100003 <= k <= 100000 + m
    ensures ValidRun(EMPTY, more) && RunFits(EMPTY, more) && Stage(Exec(EMPTY, more), m, k + 1)
  {
    var w := Exec(EMPTY, run);
    var order := ListingExists(w.st.nets.Keys);
    StageApproved(w, m, k, order, 0);
    Append(EMPTY, run, RunDecide(100002, k, "approve", order, 0));
    more := run + [RunDecide(100002, k, "approve", order, 0)];
  }

  lemma CrowdDetected(m: nat, cfg: MergeConfig) returns (run: seq<Event>)
    requires m > 0 && IsDefault(cfg)
    ensures ValidRun(EMPTY, run) && RunFits(EMPTY, run) && Stage(Exec(EMPTY, run), m, 100003)
  {
    var front := CrowdGathers(m);
    CrowdStaged(Exec(EMPTY, front), m, m, cfg, 0);
    Append(EMPTY, front, RunDetect(cfg, 0));
    run := front + [RunDetect(cfg, 0)];
  }

  lemma {:induction false} StageReached(m: nat, k: int, cfg: MergeConfig) returns (run: seq<Event>)
    requires m > 0 && IsDefault(cfg) && 100003 <= k <= 100001 + m
    ensures ValidRun(EMPTY, run) && RunFits(EMPTY, run) && Stage(Exec(EMPTY, run), m, k)
    decreases k
  {
    if k == 100003 {
      run := CrowdDetected(m, cfg);
    } else {
      var front := StageReached(m, k - 1, cfg);
      run := StageGrows(front, m, k - 1);
    }
  }

  lemma WholeStage(w: World, m: nat)
    requires Stage(w, m, 100001 + m) && m >= 2
    ensures Merges(w.st, 100001, 100002, "approve")
    ensures Higher(w.st.nets, Ordered(100001, 100002)) == 2 && |GroupIds(w.st.nets, 2)| == m - 1
  {
    assert (100001, 100002) in w.st.ledger;
    assert 100001 in w.st.nets && 100002 in w.st.nets;
    var ids := Ids(m);
    forall id | id in w.st.nets
      ensures id in GroupIds(w.st.nets, 2) <==> id != 100001
    {
    }
    assert GroupIds(w.st.nets, 2) == ids - {100001};
    assert 100001 in ids;
  }

  /** For every `n` past the limit a run within the limit ends with a group of `n` nets, correctly grouped,
      and the next approval that absorbs it splits it. */
  lemma CrowdedRunSplits(n: nat, cfg: MergeConfig) returns (run: seq<Event>)
    requires n > FIND_LIMIT && IsDefault(cfg)
    ensures ValidRun(EMPTY, run) && RunFits(EMPTY, run)
    ensures var w := Exec(EMPTY, run);
            && TablesOk(w.st) && GroupsExact(w)
            && Merges(w.st, 100001, 100002, "approve")
            && |GroupIds(w.st.nets, Higher(w.st.nets, Ordered(100001, 100002)))| == n
            && forall order, now :: Lists(order, w.st.nets.Keys) ==>
                 !GroupsExact(Apply(w, RunDecide(100001, 100002, "approve", order, now)))
  {
    run := StageReached(n + 1, 100002 + n, cfg);
    var w := Exec(EMPTY, run);
    EmptyIsExact();
    ReachableTables(EMPTY, run);
    ReachableGroups(EMPTY, run);
    WholeStage(w, n + 1);
    forall order, now | Lists(order, w.st.nets.Keys)
      ensures !GroupsExact(Apply(w, RunDecide(100001, 100002, "approve", order, now)))
    {
      MergeLeavesRowsBehind(w, 100001, 100002, order, now);
    }
  }

  /* ------------------------------------------------------- a creation id reused */

  lemma SettledKept(s: State, s': State, sigs: set<Signature>, time: int)
    requires Settled(s, sigs, time) && s'.source == s.source && s'.history == s.history
    ensures Settled(s', sigs, time)
  {
    forall k | k in UnseenKeys(s')
      ensures k in UnseenKeys(s)
    {
      assert Unseen(s, k);
    }
  }

  /** Two nets merged into one group. */
  ghost predicate Pooled(w: World) {
    && StationNets(w.st.nets, 2) && w.st.nets[100001].myNet == 1 && w.st.nets[100002].myNet == 1
    && 100002 in w.births && w.births[100002] == 2 && 100003 !in w.births
  }

  lemma PairPooled(w: World, order: seq<int>, now: int)
    requires Stage(w, 2, 100003) && Lists(order, w.st.nets.Keys)
    ensures FitsLimit(w.st, 100001, 100002, "approve")
    ensures var w' := Apply(w, RunDecide(100001, 100002, "approve", order, now));
            Pooled(w') && w'.st.source == w.st.source && w'.st.history == w.st.history
  {
    WholeStage(w, 2);
    DecideLabels(w.st, 100001, 100002, "approve", order, now);
    assert 100001 in w.st.nets && 100002 in w.st.nets;
    var nets' := Apply(w, RunDecide(100001, 100002, "approve", order, now)).st.nets;
    assert Labels(nets')[100001] == Joined(Labels(w.st.nets), 1, 2)[100001];
    assert Labels(nets')[100002] == Joined(Labels(w.st.nets), 1, 2)[100002];
  }

  lemma TwoPooled(cfg: MergeConfig) returns (run: seq<Event>, sigs: set<Signature>)
    requires IsDefault(cfg)
    ensures ValidRun(EMPTY, run) && RunFits(EMPTY, run) && Pooled(Exec(EMPTY, run))
    ensures Settled(Exec(EMPTY, run).st, sigs, 2) && Sig(CrowdRecord(2)) !in sigs
  {
    var m: nat := 2;
    var front := CrowdGathers(m);
    var w := Exec(EMPTY, front);
    sigs := HistorySigs(w.st.history);
    CrowdSigNew(w, m, m);
    CrowdStaged(w, m, m, cfg, 0);
    Append(EMPTY, front, RunDetect(cfg, 0));
    var w1 := Exec(EMPTY, front + [RunDetect(cfg, 0)]);
    var order := ListingExists(w1.st.nets.Keys);
    PairPooled(w1, order, 0);
    Append(EMPTY, front + [RunDetect(cfg, 0)], RunDecide(100001, 100002, "approve", order, 0));
    run := front + [RunDetect(cfg, 0)] + [RunDecide(100001, 100002, "approve", order, 0)];
    SettledKept(w.st, Exec(EMPTY, run).st, sigs, m);
  }

  lemma NextAfterPool(w: World, order: seq<int>)
    requires Pooled(w) && Lists(order, w.st.nets.Keys)
    ensures var rows := LoadRows(w.st.nets, order); NextNetId(rows) == 100003 && NextMyNet(rows) == 2
  {
    var rows := LoadRows(w.st.nets, order);
    forall i | 0 <= i < |rows|
      ensures 100001 <= rows[i].netId <= 100002 && rows[i].myNet == 1
    {
      assert order[i] in w.st.nets;
    }
    assert 100002 in w.st.nets;
    var k :| 0 <= k < |order| && order[k] == 100002;
    assert rows[k].netId == 100002;
  }

  lemma ThirdReusesLabel(w: World, m: nat, order: seq<int>, pad: real)
    requires Pooled(w) && Lists(order, w.st.nets.Keys) && m == 2
    ensures EntryFor(LoadRows(w.st.nets, order), CrowdRecord(m), pad) == Entry(CrowdRecord(m), 100003, 2, false, None)
  {
    forall id | id in w.st.nets
      ensures !Matches(LoadedNet(w.st.nets, id), CrowdRecord(m), pad)
    {
      StationUnknown(w.st.nets, m, id, pad);
    }
    RoutedNowhere(w.st.nets, order, CrowdRecord(m), pad);
    NextAfterPool(w, order);
  }

  /** Creation ids repeat: when the group of net 100002 has been absorbed its id 2 is handed out again. */
  lemma BirthIdsRepeat(cfg: MergeConfig) returns (run: seq<Event>)
    requires IsDefault(cfg)
    ensures ValidRun(EMPTY, run) && RunFits(EMPTY, run)
    ensures var w := Exec(EMPTY, run);
            && 100002 in w.st.nets && 100003 in w.st.nets && 100002 in w.births && 100003 in w.births
            && w.births[100002] == w.births[100003] == 2
            && w.st.nets[100002].myNet == 1 && w.st.nets[100003].myNet == 2
  {
    var front, sigs := TwoPooled(cfg);
    var w, r := Exec(EMPTY, front), CrowdRecord(2);
    var netOrder := ListingExists(w.st.nets.Keys);
    var srcOrder := ListingExists(w.st.source[KeyFor(r) := r].Keys);
    ThirdReusesLabel(w, 2, netOrder, 0.0);
    AppendSight(EMPTY, front, sigs, 2, r, netOrder, srcOrder, 0.0, 3);
    var (change, build) := Sight(w.st, r, netOrder, srcOrder, 0.0, 3);
    run := front + [change] + [build];
    assert Labels(Exec(EMPTY, run).st.nets)[100003] == 2;
  }
}
