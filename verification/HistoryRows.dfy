/** What the rows that a build adds to the history say of the reports it processed. */
module HistoryRows {
  import opened Records
  import opened NetBuilding
  import opened Passes
  import opened Pipeline
  import opened Builds
  import opened Convergence

  /** What net `id` held when the pass began: its stored record, if it was there. */
  function HeldFirst(before: seq<Member>, id: int): seq<Record> {
    if |before| == 0 then []
    else if before[|before| - 1].netId == id then [before[|before| - 1].rec]
    else HeldFirst(before[..|before| - 1], id)
  }

  lemma {:induction false} HeldFirstIs(before: seq<Member>, id: int)
    requires DistinctIds(before)
    ensures forall i :: 0 <= i < |before| && before[i].netId == id ==> HeldFirst(before, id) == [before[i].rec]
    ensures (forall i :: 0 <= i < |before| ==> before[i].netId != id) ==> HeldFirst(before, id) == []
  {
    if |before| > 0 {
      var n := |before| - 1;
      HeldFirstIs(before[..n], id);
      forall i | 0 <= i < |before| && before[i].netId == id
        ensures HeldFirst(before, id) == [before[i].rec]
      {
        if i < n {
          assert before[..n][i] == before[i];
          assert before[i].netId != before[n].netId;
        }
      }
      assert forall i :: 0 <= i < n ==> before[..n][i] == before[i];
    }
  }

  /** Everything net `id` held after the entries of `log`. */
  function Held(before: seq<Member>, log: seq<Entry>, id: int): seq<Record> {
    HeldFirst(before, id) + Folded(log, id)
  }

  /** An entry says "collapsed" exactly when its net held something, and names the FF_ID that the net then
      shows; it names none for a new net. */
  ghost predicate EntryTells(before: seq<Member>, log: seq<Entry>, e: Entry) {
    var held := Held(before, log, e.netId);
    && (e.collapsed <==> |held| > 0)
    && e.survivor == if |held| > 0 then FoldAll(held + [e.report]).ffId else None
  }

  lemma RowHolds(before: seq<Member>, p: Pass, i: nat)
    requires DistinctIds(before) && PassOk(before, p) && i < |p.rows|
    ensures Held(before, p.log, p.rows[i].netId) == History(before, p, i)
  {
    HeldFirstIs(before, p.rows[i].netId);
    if i < |before| {
      assert p.rows[i].netId == before[i].netId;
    } else {
      forall j | 0 <= j < |before|
        ensures before[j].netId != p.rows[i].netId
      {
        assert p.rows[j].netId == before[j].netId;
      }
    }
  }

  lemma NewIdHeldNothing(before: seq<Member>, p: Pass)
    requires DistinctIds(before) && PassOk(before, p)
    ensures Held(before, p.log, NextNetId(p.rows)) == []
  {
    var id := NextNetId(p.rows);
    HeldFirstIs(before, id);
    forall j | 0 <= j < |before|
      ensures before[j].netId != id
    {
      assert p.rows[j].netId == before[j].netId;
    }
    forall k | 0 <= k < |p.log|
      ensures p.log[k].netId != id
    {
      assert EntryKnown(p.log[k], p.rows);
    }
    FoldedAbsent(p.log, id);
  }

  lemma NextEntryTells(before: seq<Member>, p: Pass, report: Record, pad: real)
    requires DistinctIds(before) && PassOk(before, p)
    ensures EntryTells(before, p.log, EntryFor(p.rows, report, pad))
  {
    var route := Route(p.rows, report, pad);
    if route.Some? {
      RowHolds(before, p, route.value);
      var all := History(before, p, route.value);
      assert Traced(p.rows[route.value], Base(before, route.value), Folded(p.log, p.rows[route.value].netId));
      assert (all + [report])[..|all|] == all;
    } else {
      NewIdHeldNothing(before, p);
    }
  }

  /** Every entry of a pass tells of the moment it was made. */
  lemma {:induction false} LogTells(before: seq<Member>, seen: set<Signature>, reports: seq<Record>,
                                    guarded: bool, pad: real, k: nat)
    requires Loaded(before) && k < |RunPass(Start(before, seen), reports, guarded, pad).log|
    ensures var log := RunPass(Start(before, seen), reports, guarded, pad).log;
            EntryTells(before, log[..k], log[k])
  {
    var n := |reports| - 1;
    var p := RunPass(Start(before, seen), reports[..n], guarded, pad);
    var log := RunPass(Start(before, seen), reports, guarded, pad).log;
    if k < |p.log| {
      LogTells(before, seen, reports[..n], guarded, pad, k);
      assert log[..k] == p.log[..k];
    } else {
      PassKeepsTrace(before, seen, reports[..n], guarded, pad);
      NextEntryTells(before, p, reports[n], pad);
      assert log[..k] == p.log;
    }
  }

  /* ------------------------------------------------------------------ the rows */

  /** A history row that a build adds is the last entry of its net and FF_ID. */
  lemma {:induction false} LoggedEntry(history: map<HistKey, HistRow>, log: seq<Entry>, now: int, key: HistKey)
    returns (k: nat)
    requires FreshTime(history, now) && key.processedAt == now && key in Logged(history, log, now)
    ensures k < |log| && log[k].netId == key.netId && log[k].report.ffId == key.ffId
    ensures forall j :: k < j < |log| ==> log[j].netId != key.netId || log[j].report.ffId != key.ffId
    ensures var row := Logged(history, log, now)[key];
            && row.report == log[k].report && row.myNet == log[k].myNet
            && row.collapsed == log[k].collapsed && row.survivor == log[k].survivor
  {
    var n := |log| - 1;
    if log[n].netId == key.netId && log[n].report.ffId == key.ffId {
      k := n;
    } else {
      k := LoggedEntry(history, log[..n], now, key);
      assert forall j :: 0 <= j < n ==> log[..n][j] == log[j];
    }
  }

  lemma StoredIsHeld(s: State, netOrder: seq<int>, id: int)
    requires Lists(netOrder, s.nets.Keys)
    ensures HeldFirst(LoadRows(s.nets, netOrder), id) == Stored(s.nets, id)
  {
    var rows := LoadRows(s.nets, netOrder);
    RowsAreLoaded(s.nets, netOrder);
    HeldFirstIs(rows, id);
    if id in s.nets {
      var i :| 0 <= i < |netOrder| && netOrder[i] == id;
      assert rows[i].netId == id;
    } else {
      forall i | 0 <= i < |rows|
        ensures rows[i].netId != id
      {
        assert netOrder[i] in s.nets;
      }
    }
  }

  lemma EntryLabel(s: State, netOrder: seq<int>, srcOrder: seq<ReportKey>, pad: real, now: int, k: nat)
    requires ReadOrders(s, netOrder, srcOrder) && k < |BuildPass(s, netOrder, srcOrder, pad).log|
    ensures var e, nets' := BuildPass(s, netOrder, srcOrder, pad).log[k], Build(s, netOrder, srcOrder, pad, now).nets;
            e.netId in nets' && nets'[e.netId].myNet == e.myNet
  {
    var p := BuildPass(s, netOrder, srcOrder, pad);
    BuildIsPass(s, netOrder, srcOrder, pad, now);
    assert EntryKnown(p.log[k], p.rows);
    var i :| 0 <= i < |p.rows| && p.rows[i].netId == p.log[k].netId && p.rows[i].myNet == p.log[k].myNet;
    TableHolds(p.rows, now, i);
  }

  /** A history row added by a build carries the label its net then has.  It is marked collapsed exactly when
      the net held anything before its report: a stored record, or a report routed there earlier in the build.
      It names the FF_ID that the net shows with that report folded in, and none for a new net. */
  lemma HistoryRowTells(s: State, netOrder: seq<int>, srcOrder: seq<ReportKey>, pad: real, now: int, key: HistKey)
    returns (k: nat)
    requires ReadOrders(s, netOrder, srcOrder) && FreshTime(s.history, now)
    requires key.processedAt == now && key in Build(s, netOrder, srcOrder, pad, now).history
    ensures var log := BuildPass(s, netOrder, srcOrder, pad).log;
            var s' := Build(s, netOrder, srcOrder, pad, now);
            && k < |log| && log[k].netId == key.netId && log[k].report.ffId == key.ffId
            && (forall j :: k < j < |log| ==> log[j].netId != key.netId || log[j].report.ffId != key.ffId)
            && var row, held := s'.history[key], Stored(s.nets, key.netId) + Folded(log[..k], key.netId);
            && row.report == log[k].report
            && key.netId in s'.nets && row.myNet == s'.nets[key.netId].myNet
            && (row.collapsed <==> |held| > 0)
            && row.survivor == if |held| > 0 then FoldAll(held + [row.report]).ffId else None
  {
    var before, log := LoadRows(s.nets, netOrder), BuildPass(s, netOrder, srcOrder, pad).log;
    BuildIsPass(s, netOrder, srcOrder, pad, now);
    k := LoggedEntry(s.history, log, now, key);
    RowsAreLoaded(s.nets, netOrder);
    LogTells(before, HistorySigs(s.history), Reports(s.source, srcOrder), |s.history| > 0, pad, k);
    StoredIsHeld(s, netOrder, key.netId);
    EntryLabel(s, netOrder, srcOrder, pad, now, k);
  }
}
