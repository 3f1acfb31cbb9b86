/** Building runs step by step. */
module Runs {
  import opened Records
  import opened NetBuilding
  import opened Passes
  import opened Grouping
  import opened Pipeline
  import opened Builds
  import opened Decisions
  import opened Convergence
  import opened Machine

  lemma {:induction false} Append(w: World, run: seq<Event>, ev: Event)
    requires ValidRun(w, run) && ValidEvent(Exec(w, run).st, ev)
    ensures ValidRun(w, run + [ev]) && Exec(w, run + [ev]) == Apply(Exec(w, run), ev)
    ensures RunFits(w, run) && (ev.RunDecide? ==> FitsLimit(Exec(w, run).st, ev.a, ev.b, ev.decision)) ==>
            RunFits(w, run + [ev])
    decreases |run|
  {
    var more := run + [ev];
    if |run| == 0 {
      assert more[1..] == [];
    } else {
      assert more[1..] == run[1..] + [ev];
      Append(Apply(w, run[0]), run[1..], ev);
    }
  }

  /** The ids of the first `n` nets. */
  function Ids(n: nat): (ids: set<int>)
    ensures |ids| == n && forall x :: x in ids <==> SYSTEM_NET_START <= x < SYSTEM_NET_START + n
  {
    if n == 0 then {} else Ids(n - 1) + {SYSTEM_NET_START + n - 1}
  }

  lemma ListsSame<T(!new)>(order: seq<T>, keys: set<T>, same: set<T>)
    requires Lists(order, keys) && forall k :: k in keys <==> k in same
    ensures Lists(order, same)
  {
  }

  /** Every source row is processed, and the history has the signatures `sigs` and no timestamp above `time`. */
  ghost predicate Settled(s: State, sigs: set<Signature>, time: int) {
    && SourceOk(s.source) && UnseenKeys(s) == {}
    && HistorySigs(s.history) == sigs
    && forall k :: k in s.history ==> k.processedAt <= time
  }

  /** The key of a report. */
  function KeyFor(r: Record): ReportKey
    requires r.ffId.Some? && r.lti.Some?
  {
    ReportKey(r.ffId.value, r.lti.value)
  }

  /** A new report: the source with it, and the build that routes it. */
  function Sight(s: State, r: Record, netOrder: seq<int>, srcOrder: seq<ReportKey>, pad: real, now: int): (Event, Event)
    requires r.ffId.Some? && r.lti.Some?
  {
    (ChangeSource(s.source[KeyFor(r) := r]), RunBuild(netOrder, srcOrder, pad, now))
  }

  lemma NewRowUnseen(s: State, sigs: set<Signature>, time: int, r: Record)
    requires Settled(s, sigs, time) && r.ffId.Some? && r.lti.Some? && Sig(r) !in sigs
    ensures var s1 := s.(source := s.source[KeyFor(r) := r]);
            SourceOk(s1.source) && UnseenKeys(s1) == {KeyFor(r)}
  {
    var s1 := s.(source := s.source[KeyFor(r) := r]);
    forall k
      ensures k in UnseenKeys(s1) <==> k == KeyFor(r)
    {
      if k in s.source && k != KeyFor(r) {
        assert k !in UnseenKeys(s);
      }
    }
  }

  lemma OneSaved(e: Entry)
    ensures SavedSigs([e]) == {Sig(e.report)}
    ensures NoSharedSlot([e])
  {
    var last := LastBySlot([e]);
    assert [e][..|[e]| - 1] == [];
    assert last == LastBySlot([])[SlotOf(e) := e.report];
    assert SlotOf(e) in last && last[SlotOf(e)] == e.report;
  }

  lemma LoggedTimes(history: map<HistKey, HistRow>, log: seq<Entry>, now: int)
    requires forall h :: h in history ==> h.processedAt < now
    ensures forall h :: h in Logged(history, log, now) ==> h.processedAt <= now
  {
    forall h | h in Logged(history, log, now)
      ensures h.processedAt <= now
    {
      LoggedRows(history, log, now, h);
    }
  }

  lemma RoutedRowSettles(s: State, sigs: set<Signature>, k: ReportKey, netOrder: seq<int>, srcOrder: seq<ReportKey>,
                         pad: real, now: int)
    requires ReadOrders(s, netOrder, srcOrder) && SourceOk(s.source) && UnseenKeys(s) == {k}
    requires HistorySigs(s.history) == sigs && (forall h :: h in s.history ==> h.processedAt < now)
    ensures k in s.source
    ensures Settled(Build(s, netOrder, srcOrder, pad, now), sigs + {Sig(s.source[k])}, now)
  {
    var before := LoadRows(s.nets, netOrder);
    OneUnknown(s, srcOrder, k);
    var e := EntryFor(before, s.source[k], pad);
    OneUnseenBuild(s, netOrder, srcOrder, pad, k);
    OneSaved(e);
    RerunSkipsAllIff(s, netOrder, srcOrder, pad, now);
    BuildIsPass(s, netOrder, srcOrder, pad, now);
    LoggedSigs(s.history, [e], now);
    LoggedTimes(s.history, [e], now);
  }

  /* -------------------------------------------------------------- one report */

  /** `nets'` is `nets` with the report of `e` folded in or added. */
  ghost predicate Routed(nets: map<int, NetRow>, nets': map<int, NetRow>, e: Entry, now: int) {
    && (e.collapsed <==> e.netId in nets)
    && (forall id :: id in nets' <==> id in nets || id == e.netId)
    && (forall id :: id in nets && id != e.netId ==> nets'[id] == nets[id].(updatedAt := now))
    && nets'[e.netId] == if e.collapsed then NetRow(nets[e.netId].myNet, Fold(nets[e.netId].rec, e.report), now)
                         else NetRow(e.myNet, e.report, now)
  }

  lemma RoutedRowStored(rows: seq<Member>, rows': seq<Member>, nets': map<int, NetRow>, r: Record, pad: real, now: int)
    requires rows' == StepRows(rows, r, pad)
    requires forall i :: 0 <= i < |rows'| ==>
             rows'[i].netId in nets' && nets'[rows'[i].netId] == NetRow(rows'[i].myNet, rows'[i].rec, now)
    ensures var e := EntryFor(rows, r, pad);
            && e.netId in nets'
            && (!e.collapsed ==>
                 && nets'[e.netId] == NetRow(e.myNet, r, now)
                 && forall i :: 0 <= i < |rows| ==> rows[i].netId != e.netId)
            && (e.collapsed ==>
                  exists i :: 0 <= i < |rows| && rows[i].netId == e.netId &&
                              nets'[e.netId] == NetRow(rows[i].myNet, Fold(rows[i].rec, r), now))
  {
    var route := Route(rows, r, pad);
    if route.Some? {
      assert rows'[route.value].netId == rows[route.value].netId;
    } else {
      assert rows'[|rows|] == NewMember(rows, r);
    }
  }

  /** Rows kept by the step are stored as they were. */
  lemma KeptRowStored(rows: seq<Member>, rows': seq<Member>, r: Record, pad: real, i: nat)
    requires rows' == StepRows(rows, r, pad) && i < |rows| && DistinctIds(rows)
    ensures i < |rows'| && rows'[i].netId == rows[i].netId
    ensures rows[i].netId != EntryFor(rows, r, pad).netId ==> rows'[i] == rows[i]
  {
  }

  lemma StoredRows(rows: seq<Member>, r: Record, pad: real, now: int)
    requires DistinctIds(rows)
    ensures var rows' := StepRows(rows, r, pad);
            var nets' := TableOf(rows', now);
            && DistinctIds(rows')
            && (forall i :: 0 <= i < |rows'| ==>
                 rows'[i].netId in nets' && nets'[rows'[i].netId] == NetRow(rows'[i].myNet, rows'[i].rec, now))
            && (forall id :: id in nets' ==> HasId(rows', id))
  {
    var rows' := StepRows(rows, r, pad);
    StepExtends(rows, rows, r, pad);
    ExtendsKeepsDistinct(rows, rows');
    forall i | 0 <= i < |rows'|
      ensures rows'[i].netId in TableOf(rows', now)
              && TableOf(rows', now)[rows'[i].netId] == NetRow(rows'[i].myNet, rows'[i].rec, now)
    {
      TableHolds(rows', now, i);
    }
    forall id | id in TableOf(rows', now)
      ensures HasId(rows', id)
    {
      var i := TableSource(rows', now, id);
    }
  }

  lemma StepHasId(rows: seq<Member>, r: Record, pad: real, id: int)
    requires HasId(StepRows(rows, r, pad), id)
    ensures HasId(rows, id) || id == EntryFor(rows, r, pad).netId
  {
    var rows' := StepRows(rows, r, pad);
    var i :| 0 <= i < |rows'| && rows'[i].netId == id;
    if i < |rows| {
      assert rows'[i].netId == rows[i].netId;
    }
  }

  lemma KeptNetStored(nets: map<int, NetRow>, order: seq<int>, r: Record, pad: real, now: int, id: int)
    requires Lists(order, nets.Keys) && id in nets
    ensures var rows := LoadRows(nets, order);
            var nets' := TableOf(StepRows(rows, r, pad), now);
            id in nets' && (id != EntryFor(rows, r, pad).netId ==> nets'[id] == nets[id].(updatedAt := now))
  {
    var rows := LoadRows(nets, order);
    var rows' := StepRows(rows, r, pad);
    var i :| 0 <= i < |order| && order[i] == id;
    StoredRows(rows, r, pad, now);
    KeptRowStored(rows, rows', r, pad, i);
  }

  lemma RoutedId(nets: map<int, NetRow>, order: seq<int>, rows: seq<Member>, e: Entry)
    requires Lists(order, nets.Keys) && rows == LoadRows(nets, order)
    requires e.collapsed <==> HasId(rows, e.netId)
    ensures e.collapsed <==> e.netId in nets
  {
    if e.netId in nets {
      var i :| 0 <= i < |order| && order[i] == e.netId;
      assert rows[i].netId == e.netId;
    }
  }

  lemma RoutedNetStored(nets: map<int, NetRow>, order: seq<int>, r: Record, pad: real, now: int)
    requires Lists(order, nets.Keys)
    ensures var rows := LoadRows(nets, order);
            var nets', e := TableOf(StepRows(rows, r, pad), now), EntryFor(rows, r, pad);
            && e.netId in nets' && (e.collapsed <==> e.netId in nets)
            && nets'[e.netId] == if e.collapsed then NetRow(nets[e.netId].myNet, Fold(nets[e.netId].rec, r), now)
                 else NetRow(e.myNet, r, now)
  {
    var rows := LoadRows(nets, order);
    var rows', e := StepRows(rows, r, pad), EntryFor(rows, r, pad);
    StoredRows(rows, r, pad, now);
    RoutedRowStored(rows, rows', TableOf(rows', now), r, pad, now);
    RoutedId(nets, order, rows, e);
  }

  lemma NoOtherStored(nets: map<int, NetRow>, order: seq<int>, r: Record, pad: real, now: int, id: int)
    requires Lists(order, nets.Keys)
    requires var rows := LoadRows(nets, order);
             id in TableOf(StepRows(rows, r, pad), now) && id != EntryFor(rows, r, pad).netId
    ensures id in nets
  {
    var rows := LoadRows(nets, order);
    StoredRows(rows, r, pad, now);
    StepHasId(rows, r, pad, id);
    var i :| 0 <= i < |rows| && rows[i].netId == id;
    assert order[i] in nets;
  }

  lemma RoutedTable(nets: map<int, NetRow>, order: seq<int>, r: Record, pad: real, now: int)
    requires Lists(order, nets.Keys)
    ensures var rows := LoadRows(nets, order);
            Routed(nets, TableOf(StepRows(rows, r, pad), now), EntryFor(rows, r, pad), now)
  {
    var rows := LoadRows(nets, order);
    var nets', e := TableOf(StepRows(rows, r, pad), now), EntryFor(rows, r, pad);
    RoutedNetStored(nets, order, r, pad, now);
    forall id | id in nets
      ensures id in nets' && (id != e.netId ==> nets'[id] == nets[id].(updatedAt := now))
    {
      KeptNetStored(nets, order, r, pad, now, id);
    }
    forall id | id in nets' && id != e.netId
      ensures id in nets
    {
      NoOtherStored(nets, order, r, pad, now, id);
    }
  }

  /** A build has routed the new report `r`, as `e` says, and changed nothing else. */
  ghost predicate Sighted(w: World, w': World, r: Record, e: Entry, now: int)
    requires r.ffId.Some? && r.lti.Some?
  {
    && e.report == r && Routed(w.st.nets, w'.st.nets, e, now)
    && w'.st.source == w.st.source[KeyFor(r) := r] && w'.st.ledger == w.st.ledger
    && w'.folds == FoldsAfter(w.folds, w'.st.nets, [e])
    && w'.births == Born(w.births, Labels(w'.st.nets)) && w'.merges == w.merges
  }

  lemma SightStep(w: World, sigs: set<Signature>, time: int, r: Record, netOrder: seq<int>, srcOrder: seq<ReportKey>,
                  pad: real, now: int)
    requires Settled(w.st, sigs, time) && time < now
    requires r.ffId.Some? && r.lti.Some? && Sig(r) !in sigs
    requires Lists(netOrder, w.st.nets.Keys) && Lists(srcOrder, w.st.source[KeyFor(r) := r].Keys)
    ensures var (change, build) := Sight(w.st, r, netOrder, srcOrder, pad, now);
            && ValidEvent(w.st, change) && ValidEvent(Apply(w, change).st, build)
            && var w' := Apply(Apply(w, change), build);
            && Settled(w'.st, sigs + {Sig(r)}, now)
            && Sighted(w, w', r, EntryFor(LoadRows(w.st.nets, netOrder), r, pad), now)
  {
    var (change, build) := Sight(w.st, r, netOrder, srcOrder, pad, now);
    NewRowUnseen(w.st, sigs, time, r);
    var s1 := Apply(w, change).st;
    OneUnseenBuild(s1, netOrder, srcOrder, pad, KeyFor(r));
    RoutedRowSettles(s1, sigs, KeyFor(r), netOrder, srcOrder, pad, now);
    BuildIsPass(s1, netOrder, srcOrder, pad, now);
    RoutedTable(w.st.nets, netOrder, r, pad, now);
  }

  /** Any run that ends settled can be followed by the sighting of a new report. */
  lemma AppendSight(w: World, run: seq<Event>, sigs: set<Signature>, time: int, r: Record, netOrder: seq<int>,
                    srcOrder: seq<ReportKey>, pad: real, now: int)
    requires ValidRun(w, run) && Settled(Exec(w, run).st, sigs, time) && time < now
    requires r.ffId.Some? && r.lti.Some? && Sig(r) !in sigs
    requires Lists(netOrder, Exec(w, run).st.nets.Keys) && Lists(srcOrder, Exec(w, run).st.source[KeyFor(r) := r].Keys)
    ensures var (change, build) := Sight(Exec(w, run).st, r, netOrder, srcOrder, pad, now);
            var more := run + [change] + [build];
            && ValidRun(w, more) && (RunFits(w, run) ==> RunFits(w, more))
            && Settled(Exec(w, more).st, sigs + {Sig(r)}, now)
            && Sighted(Exec(w, run), Exec(w, more), r, EntryFor(LoadRows(Exec(w, run).st.nets, netOrder), r, pad), now)
  {
    var (change, build) := Sight(Exec(w, run).st, r, netOrder, srcOrder, pad, now);
    SightStep(Exec(w, run), sigs, time, r, netOrder, srcOrder, pad, now);
    Append(w, run, change);
    Append(w, run + [change], build);
  }
}
