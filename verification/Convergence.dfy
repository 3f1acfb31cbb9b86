/** Repeated builds over one source: what each leaves unprocessed, and when they settle. */
module Convergence {
  import opened Records
  import opened NetBuilding
  import opened Passes
  import opened Pipeline
  import opened Builds

  /** The part of the history key that one build can repeat: net and FF_ID. */
  type Slot = (int, Option<int>)

  function SlotOf(e: Entry): Slot { (e.netId, e.report.ffId) }

  /** The last report logged in each slot. */
  function LastBySlot(log: seq<Entry>): map<Slot, Record> {
    if |log| == 0 then map[]
    else LastBySlot(log[..|log| - 1])[SlotOf(log[|log| - 1]) := log[|log| - 1].report]
  }

  function Slots(log: seq<Entry>): set<Slot> {
    set k | 0 <= k < |log| :: SlotOf(log[k])
  }

  lemma {:induction false} LastBySlotKeys(log: seq<Entry>)
    ensures LastBySlot(log).Keys == Slots(log)
  {
    if |log| > 0 {
      var n := |log| - 1;
      LastBySlotKeys(log[..n]);
      assert Slots(log) == Slots(log[..n]) + {SlotOf(log[n])} by {
        assert forall k :: 0 <= k < n ==> log[k] == log[..n][k];
        forall s | s in Slots(log)
          ensures s in Slots(log[..n]) + {SlotOf(log[n])}
        {
          var k :| 0 <= k < |log| && SlotOf(log[k]) == s;
          if k < n {
            assert SlotOf(log[..n][k]) == s;
          }
        }
        forall s | s in Slots(log[..n])
          ensures s in Slots(log)
        {
          var k :| 0 <= k < n && SlotOf(log[..n][k]) == s;
          assert SlotOf(log[k]) == s;
        }
      }
    }
  }

  lemma {:induction false} LastBySlotLogged(log: seq<Entry>, s: Slot) returns (k: nat)
    requires s in LastBySlot(log)
    ensures k < |log| && SlotOf(log[k]) == s && log[k].report == LastBySlot(log)[s]
  {
    var n := |log| - 1;
    if SlotOf(log[n]) == s {
      k := n;
    } else {
      k := LastBySlotLogged(log[..n], s);
    }
  }

  /** `now` is not the timestamp of any row of the history. */
  ghost predicate FreshTime(history: map<HistKey, HistRow>, now: int) {
    forall k :: k in history ==> k.processedAt != now
  }

  lemma {:induction false} LoggedRows(history: map<HistKey, HistRow>, log: seq<Entry>, now: int, k: HistKey)
    requires FreshTime(history, now)
    ensures k in Logged(history, log, now) <==>
            k in history || (k.processedAt == now && (k.netId, k.ffId) in LastBySlot(log))
    ensures k in history ==> Logged(history, log, now)[k] == history[k]
    ensures k.processedAt == now && (k.netId, k.ffId) in LastBySlot(log) ==>
              Logged(history, log, now)[k].report == LastBySlot(log)[(k.netId, k.ffId)]
  {
    if |log| > 0 {
      LoggedRows(history, log[..|log| - 1], now, k);
    }
  }

  /** The signatures that a log leaves in the history: those of the last report of each slot. */
  function SavedSigs(log: seq<Entry>): set<Signature> {
    set s | s in LastBySlot(log) :: Sig(LastBySlot(log)[s])
  }

  lemma LoggedSigs(history: map<HistKey, HistRow>, log: seq<Entry>, now: int)
    requires FreshTime(history, now)
    ensures HistorySigs(Logged(history, log, now)) == HistorySigs(history) + SavedSigs(log)
  {
    var history' := Logged(history, log, now);
    forall g | g in HistorySigs(history')
      ensures g in HistorySigs(history) + SavedSigs(log)
    {
      var k :| k in history' && Sig(history'[k].report) == g;
      LoggedRows(history, log, now, k);
    }
    forall g | g in HistorySigs(history)
      ensures g in HistorySigs(history')
    {
      var k :| k in history && Sig(history[k].report) == g;
      LoggedRows(history, log, now, k);
    }
    forall g | g in SavedSigs(log)
      ensures g in HistorySigs(history')
    {
      var s :| s in LastBySlot(log) && Sig(LastBySlot(log)[s]) == g;
      LoggedRows(history, log, now, HistKey(s.0, now, s.1));
    }
  }

  /* ------------------------------------------------------- which reports are run */

  ghost predicate DistinctSigs(reports: seq<Record>) {
    forall i, j :: 0 <= i < j < |reports| ==> Sig(reports[i]) != Sig(reports[j])
  }

  function LogReports(log: seq<Entry>): (reports: seq<Record>)
    ensures |reports| == |log| && forall k :: 0 <= k < |log| ==> reports[k] == log[k].report
  {
    if |log| == 0 then [] else LogReports(log[..|log| - 1]) + [log[|log| - 1].report]
  }

  /** The reports whose signatures are not in `known`, in order. */
  function Unknown(reports: seq<Record>, known: set<Signature>): seq<Record> {
    if |reports| == 0 then []
    else
      var last := reports[|reports| - 1];
      Unknown(reports[..|reports| - 1], known) + (if Sig(last) in known then [] else [last])
  }

  lemma {:induction false} UnknownHas(reports: seq<Record>, known: set<Signature>, r: Record)
    ensures r in Unknown(reports, known) <==> r in reports && Sig(r) !in known
  {
    if |reports| > 0 {
      var n := |reports| - 1;
      UnknownHas(reports[..n], known, r);
      assert reports == reports[..n] + [reports[n]];
    }
  }

  /** The guard knows the history and the reports of this pass, nothing else. */
  lemma {:induction false} SeenDuringPass(before: seq<Member>, known: set<Signature>, reports: seq<Record>,
                                          guarded: bool, pad: real, g: Signature)
    ensures var seen := RunPass(Start(before, known), reports, guarded, pad).seen;
            && (g in known ==> g in seen)
            && (g in seen && g !in known ==> exists i :: 0 <= i < |reports| && Sig(reports[i]) == g)
  {
    if |reports| > 0 {
      var n := |reports| - 1;
      SeenDuringPass(before, known, reports[..n], guarded, pad, g);
      assert forall i :: 0 <= i < n ==> reports[..n][i] == reports[i];
      assert Sig(reports[n]) == g ==> exists i :: 0 <= i < |reports| && Sig(reports[i]) == g;
    }
  }

  lemma StepLogReports(p: Pass, known: set<Signature>, report: Record, guarded: bool, pad: real)
    requires guarded ==> (Sig(report) in p.seen <==> Sig(report) in known)
    requires !guarded ==> known == {}
    ensures LogReports(StepPass(p, report, guarded, pad).log) ==
            if Sig(report) in known then LogReports(p.log) else LogReports(p.log) + [report]
  {
    assert (p.log + [EntryFor(p.rows, report, pad)])[..|p.log|] == p.log;
  }

  /** A pass processes exactly the reports not in the history, whether or not its guard is on. */
  lemma {:induction false} PassRunsUnknown(before: seq<Member>, known: set<Signature>, reports: seq<Record>,
                                           guarded: bool, pad: real)
    requires DistinctSigs(reports) && (!guarded ==> known == {})
    ensures LogReports(RunPass(Start(before, known), reports, guarded, pad).log) == Unknown(reports, known)
  {
    if |reports| > 0 {
      var n := |reports| - 1;
      PassRunsUnknown(before, known, reports[..n], guarded, pad);
      SeenDuringPass(before, known, reports[..n], guarded, pad, Sig(reports[n]));
      assert forall i :: 0 <= i < n ==> Sig(reports[..n][i]) != Sig(reports[n]);
      StepLogReports(RunPass(Start(before, known), reports[..n], guarded, pad), known, reports[n], guarded, pad);
    }
  }

  ghost predicate Unseen(s: State, k: ReportKey) {
    k in s.source && Sig(s.source[k]) !in HistorySigs(s.history)
  }

  /** The source rows whose signatures are not in the history. */
  ghost function UnseenKeys(s: State): set<ReportKey> {
    set k | k in s.source && Unseen(s, k)
  }

  lemma SourceSigsDistinct(s: State, order: seq<ReportKey>)
    requires SourceOk(s.source) && Lists(order, s.source.Keys)
    ensures DistinctSigs(Reports(s.source, order))
  {
    forall i, j | 0 <= i < j < |order|
      ensures Sig(s.source[order[i]]) != Sig(s.source[order[j]])
    {
      assert order[i] != order[j];
      assert order[i] in s.source && order[j] in s.source;
    }
  }

  lemma BuildRunsUnseen(s: State, netOrder: seq<int>, srcOrder: seq<ReportKey>, pad: real)
    requires ReadOrders(s, netOrder, srcOrder) && SourceOk(s.source)
    ensures LogReports(BuildPass(s, netOrder, srcOrder, pad).log) ==
            Unknown(Reports(s.source, srcOrder), HistorySigs(s.history))
  {
    SourceSigsDistinct(s, srcOrder);
    if |s.history| == 0 {
      assert HistorySigs(s.history) == {};
    }
    PassRunsUnknown(LoadRows(s.nets, netOrder), HistorySigs(s.history), Reports(s.source, srcOrder), |s.history| > 0,
        pad);
  }

  lemma StepIsUnknownStep(p: Pass, q: Pass, known: set<Signature>, report: Record, guarded: bool, pad: real)
    requires p.rows == q.rows && p.log == q.log
    requires guarded ==> (Sig(report) in p.seen <==> Sig(report) in known)
    requires !guarded ==> known == {}
    ensures var p' := StepPass(p, report, guarded, pad);
            var q' := if Sig(report) in known then q else StepPass(q, report, false, pad);
            p'.rows == q'.rows && p'.log == q'.log
  {
  }

  lemma PassAppend(p: Pass, reports: seq<Record>, r: Record, guarded: bool, pad: real)
    ensures RunPass(p, reports + [r], guarded, pad) == StepPass(RunPass(p, reports, guarded, pad), r, guarded, pad)
  {
    assert (reports + [r])[..|reports|] == reports;
  }

  /** Skipped reports leave no trace: a pass does what an unguarded pass over the unknown reports does. */
  lemma {:induction false} PassIsUnknownPass(before: seq<Member>, known: set<Signature>, reports: seq<Record>,
                                             guarded: bool, pad: real)
    requires DistinctSigs(reports) && (!guarded ==> known == {})
    ensures var p := RunPass(Start(before, known), reports, guarded, pad);
            var q := RunPass(Start(before, {}), Unknown(reports, known), false, pad);
            p.rows == q.rows && p.log == q.log
  {
    if |reports| > 0 {
      var n := |reports| - 1;
      var front := Unknown(reports[..n], known);
      var p, q := RunPass(Start(before, known), reports[..n], guarded, pad),
          RunPass(Start(before, {}), front, false, pad);
      PassIsUnknownPass(before, known, reports[..n], guarded, pad);
      SeenDuringPass(before, known, reports[..n], guarded, pad, Sig(reports[n]));
      assert forall i :: 0 <= i < n ==> Sig(reports[..n][i]) != Sig(reports[n]);
      StepIsUnknownStep(p, q, known, reports[n], guarded, pad);
      if Sig(reports[n]) in known {
        assert Unknown(reports, known) == front;
      } else {
        PassAppend(Start(before, {}), front, reports[n], false, pad);
      }
    }
  }

  /* ---------------------------------------------------------------- how many are left */

  lemma {:induction false} ImageSize<K, V>(keys: set<K>, f: K -> V, image: set<V>)
    requires image == set k | k in keys :: f(k)
    requires forall k, l :: k in keys && l in keys && f(k) == f(l) ==> k == l
    ensures |image| == |keys|
    decreases keys
  {
    if keys == {} {
      assert image == {};
    } else {
      var k := AnyOf(keys);
      ImageSize(keys - {k}, f, image - {f(k)});
    }
  }

  /** Reports logged by a pass over distinct reports are distinct, so the slots save one signature each. */
  lemma SavedSigsSize(log: seq<Entry>)
    requires DistinctSigs(LogReports(log))
    ensures |SavedSigs(log)| == |Slots(log)|
  {
    var last := LastBySlot(log);
    LastBySlotKeys(log);
    forall s, t | s in last.Keys && t in last.Keys && Sig(last[s]) == Sig(last[t])
      ensures s == t
    {
      var i := LastBySlotLogged(log, s);
      var j := LastBySlotLogged(log, t);
      assert LogReports(log)[i] == last[s] && LogReports(log)[j] == last[t];
    }
    var none := Signature(None, None, None, None, None);
    ImageSize(last.Keys, (s: Slot) => if s in last then Sig(last[s]) else none, SavedSigs(log));
  }

  lemma {:induction false} UnknownDistinct(reports: seq<Record>, known: set<Signature>)
    requires DistinctSigs(reports)
    ensures DistinctSigs(Unknown(reports, known))
  {
    if |reports| > 0 {
      var n := |reports| - 1;
      var front := Unknown(reports[..n], known);
      UnknownDistinct(reports[..n], known);
      forall i | 0 <= i < |front|
        ensures Sig(front[i]) != Sig(reports[n])
      {
        UnknownHas(reports[..n], known, front[i]);
        var k :| 0 <= k < n && reports[..n][k] == front[i];
        assert Sig(reports[k]) != Sig(reports[n]);
      }
    }
  }

  /** The signatures of a set of source rows. */
  ghost function SigsOf(source: map<ReportKey, Record>, keys: set<ReportKey>): set<Signature>
    requires keys <= source.Keys
  {
    set k | k in keys :: Sig(source[k])
  }

  lemma SigsOfSize(source: map<ReportKey, Record>, keys: set<ReportKey>)
    requires SourceOk(source) && keys <= source.Keys
    ensures |SigsOf(source, keys)| == |keys|
  {
    forall k, l | k in keys && l in keys && Sig(source[k]) == Sig(source[l])
      ensures k == l
    {
      assert k in source && l in source;
    }
    var none := Signature(None, None, None, None, None);
    ImageSize(keys, (k: ReportKey) => if k in source then Sig(source[k]) else none, SigsOf(source, keys));
  }

  lemma UnknownIsUnseen(s: State, srcOrder: seq<ReportKey>, r: Record) returns (k: ReportKey)
    requires Lists(srcOrder, s.source.Keys) && r in Unknown(Reports(s.source, srcOrder), HistorySigs(s.history))
    ensures k in UnseenKeys(s) && s.source[k] == r
  {
    var reports := Reports(s.source, srcOrder);
    UnknownHas(reports, HistorySigs(s.history), r);
    var j :| 0 <= j < |reports| && reports[j] == r;
    k := srcOrder[j];
    assert Unseen(s, k);
  }

  /** The signatures saved by a build are signatures of source rows it found unseen. */
  lemma SavedAreUnseen(s: State, netOrder: seq<int>, srcOrder: seq<ReportKey>, pad: real)
    requires ReadOrders(s, netOrder, srcOrder) && SourceOk(s.source)
    ensures SavedSigs(BuildPass(s, netOrder, srcOrder, pad).log) <= SigsOf(s.source, UnseenKeys(s))
    ensures DistinctSigs(LogReports(BuildPass(s, netOrder, srcOrder, pad).log))
  {
    var log := BuildPass(s, netOrder, srcOrder, pad).log;
    var reports := Reports(s.source, srcOrder);
    BuildRunsUnseen(s, netOrder, srcOrder, pad);
    SourceSigsDistinct(s, srcOrder);
    UnknownDistinct(reports, HistorySigs(s.history));
    forall g | g in SavedSigs(log)
      ensures g in SigsOf(s.source, UnseenKeys(s))
    {
      var t :| t in LastBySlot(log) && Sig(LastBySlot(log)[t]) == g;
      var i := LastBySlotLogged(log, t);
      var k := UnknownIsUnseen(s, srcOrder, LogReports(log)[i]);
    }
  }

  /** Each build brings the number of unprocessed source rows down by exactly the number of distinct
      (net, FF_ID) slots it logged: reports that share a slot overwrite each other in the history. */
  lemma BuildCutsUnseen(s: State, netOrder: seq<int>, srcOrder: seq<ReportKey>, pad: real, now: int)
    requires ReadOrders(s, netOrder, srcOrder) && SourceOk(s.source) && FreshTime(s.history, now)
    ensures var s' := Build(s, netOrder, srcOrder, pad, now);
            |UnseenKeys(s')| == |UnseenKeys(s)| - |Slots(BuildPass(s, netOrder, srcOrder, pad).log)|
  {
    var s', log := Build(s, netOrder, srcOrder, pad, now), BuildPass(s, netOrder, srcOrder, pad).log;
    BuildIsPass(s, netOrder, srcOrder, pad, now);
    LoggedSigs(s.history, log, now);
    SavedAreUnseen(s, netOrder, srcOrder, pad);
    SavedSigsSize(log);
    var all, left, saved := SigsOf(s.source, UnseenKeys(s)), SigsOf(s.source, UnseenKeys(s')), SavedSigs(log);
    LeftAreUnsaved(s, s', saved);
    SigsOfSize(s.source, UnseenKeys(s));
    SigsOfSize(s.source, UnseenKeys(s'));
    assert |all - saved| == |all| - |saved|;
  }

  lemma LeftAreUnsaved(s: State, s': State, saved: set<Signature>)
    requires s'.source == s.source && HistorySigs(s'.history) == HistorySigs(s.history) + saved
    ensures SigsOf(s.source, UnseenKeys(s')) == SigsOf(s.source, UnseenKeys(s)) - saved
  {
    forall g | g in SigsOf(s.source, UnseenKeys(s)) - saved
      ensures g in SigsOf(s.source, UnseenKeys(s'))
    {
      var k :| k in UnseenKeys(s) && Sig(s.source[k]) == g;
      assert Unseen(s', k);
    }
    forall g | g in SigsOf(s.source, UnseenKeys(s'))
      ensures g in SigsOf(s.source, UnseenKeys(s)) - saved
    {
      var k :| k in UnseenKeys(s') && Sig(s.source[k]) == g;
      assert Unseen(s, k);
    }
  }

  /* ------------------------------------------------------------------ convergence */

  ghost function UnseenAmong(s: State, keys: set<ReportKey>): set<ReportKey> {
    set k | k in keys && Unseen(s, k)
  }

  lemma UnseenAmongWithout(s: State, keys: set<ReportKey>, k: ReportKey)
    requires k in keys
    ensures |UnseenAmong(s, keys)| == |UnseenAmong(s, keys - {k})| + (if Unseen(s, k) then 1 else 0)
  {
    var rest := UnseenAmong(s, keys - {k});
    assert UnseenAmong(s, keys) == if Unseen(s, k) then rest + {k} else rest;
  }

  lemma ListsFront<T(!new)>(order: seq<T>, keys: set<T>)
    requires Lists(order, keys) && |order| > 0
    ensures Lists(order[..|order| - 1], keys - {order[|order| - 1]})
  {
    var n := |order| - 1;
    assert order == order[..n] + [order[n]];
    assert forall i :: 0 <= i < n ==> order[i] != order[n];
  }

  lemma {:induction false} UnknownSize(s: State, order: seq<ReportKey>, keys: set<ReportKey>)
    requires Lists(order, keys) && keys <= s.source.Keys
    ensures |Unknown(Reports(s.source, order), HistorySigs(s.history))| == |UnseenAmong(s, keys)|
  {
    if |order| > 0 {
      var n := |order| - 1;
      ListsFront(order, keys);
      assert order[n] in order;
      UnknownSize(s, order[..n], keys - {order[n]});
      UnseenAmongWithout(s, keys, order[n]);
      assert Reports(s.source, order)[..n] == Reports(s.source, order[..n]);
    } else {
      assert keys == {};
    }
  }

  lemma UnknownCount(s: State, order: seq<ReportKey>)
    requires Lists(order, s.source.Keys) && SourceOk(s.source)
    ensures var unknown := Unknown(Reports(s.source, order), HistorySigs(s.history));
            |unknown| == |UnseenKeys(s)| && DistinctSigs(unknown)
  {
    UnknownSize(s, order, s.source.Keys);
    assert UnseenKeys(s) == UnseenAmong(s, s.source.Keys);
    SourceSigsDistinct(s, order);
    UnknownDistinct(Reports(s.source, order), HistorySigs(s.history));
  }

  /** The log has one entry for each unseen source row. */
  lemma LogSize(s: State, netOrder: seq<int>, srcOrder: seq<ReportKey>, pad: real)
    requires ReadOrders(s, netOrder, srcOrder) && SourceOk(s.source)
    ensures |BuildPass(s, netOrder, srcOrder, pad).log| == |UnseenKeys(s)|
  {
    BuildRunsUnseen(s, netOrder, srcOrder, pad);
    UnknownCount(s, srcOrder);
  }

  /** One build: the orders in which it reads, its slack and its timestamp. */
  datatype Rerun = Rerun(netOrder: seq<int>, srcOrder: seq<ReportKey>, pad: real, now: int)

  ghost predicate ValidReruns(s: State, runs: seq<Rerun>)
    decreases |runs|
  {
    |runs| == 0 ||
    (var r := runs[0];
     && ReadOrders(s, r.netOrder, r.srcOrder) && FreshTime(s.history, r.now)
     && ValidReruns(Build(s, r.netOrder, r.srcOrder, r.pad, r.now), runs[1..]))
  }

  ghost function Rebuild(s: State, runs: seq<Rerun>): State
    requires ValidReruns(s, runs)
    decreases |runs|
  {
    if |runs| == 0 then s
    else
      var r := runs[0];
      Rebuild(Build(s, r.netOrder, r.srcOrder, r.pad, r.now), runs[1..])
  }

  /** Builds repeated on one source reach the point where every report is skipped, in at most as many
      builds as there were unprocessed reports. */
  lemma {:induction false} RebuildsSettle(s: State, runs: seq<Rerun>)
    requires SourceOk(s.source) && ValidReruns(s, runs) && |runs| >= |UnseenKeys(s)|
    ensures UnseenKeys(Rebuild(s, runs)) == {}
    decreases |runs|
  {
    if |runs| == 0 {
    } else {
      var r := runs[0];
      var log := BuildPass(s, r.netOrder, r.srcOrder, r.pad).log;
      BuildCutsUnseen(s, r.netOrder, r.srcOrder, r.pad, r.now);
      LogSize(s, r.netOrder, r.srcOrder, r.pad);
      if |log| > 0 {
        assert SlotOf(log[0]) in Slots(log);
      }
      RebuildsSettle(Build(s, r.netOrder, r.srcOrder, r.pad, r.now), runs[1..]);
    }
  }

  /** With nothing unprocessed a build skips every report and changes nothing but `updated_at`. */
  lemma SettledBuildIsIdle(s: State, netOrder: seq<int>, srcOrder: seq<ReportKey>, pad: real, now: int)
    requires ReadOrders(s, netOrder, srcOrder) && SourceOk(s.source) && UnseenKeys(s) == {}
    ensures var s', p := Build(s, netOrder, srcOrder, pad, now), BuildPass(s, netOrder, srcOrder, pad);
            && p.log == [] && p.skipped == |s.source|
            && s'.history == s.history
            && s'.nets.Keys == s.nets.Keys
            && (forall id :: id in s.nets ==> s'.nets[id].(updatedAt := s.nets[id].updatedAt) == s.nets[id])
  {
    LogSize(s, netOrder, srcOrder, pad);
    BuildConserves(s, netOrder, srcOrder, pad, now);
    IdleTables(s, netOrder, srcOrder, pad, now);
    forall id | id in s.nets
      ensures Build(s, netOrder, srcOrder, pad, now).nets[id].(updatedAt := s.nets[id].updatedAt) == s.nets[id]
    {
      IdleNet(s, netOrder, srcOrder, pad, now, id);
    }
  }

  lemma IdleTables(s: State, netOrder: seq<int>, srcOrder: seq<ReportKey>, pad: real, now: int)
    requires ReadOrders(s, netOrder, srcOrder)
    requires BuildPass(s, netOrder, srcOrder, pad).log == []
    ensures var s' := Build(s, netOrder, srcOrder, pad, now);
            s'.history == s.history && s'.nets.Keys == s.nets.Keys
  {
    var s' := Build(s, netOrder, srcOrder, pad, now);
    BuildConserves(s, netOrder, srcOrder, pad, now);
    BuildIsPass(s, netOrder, srcOrder, pad, now);
    BuildGrowsFresh(s, netOrder, srcOrder, pad, now);
    assert Labels(s.nets).Keys <= Labels(s'.nets).Keys;
    assert |s'.nets.Keys| == |s.nets.Keys|;
    SubsetOfSameSize(s.nets.Keys, s'.nets.Keys);
  }

  lemma IdleNet(s: State, netOrder: seq<int>, srcOrder: seq<ReportKey>, pad: real, now: int, id: int)
    requires ReadOrders(s, netOrder, srcOrder) && id in s.nets
    requires BuildPass(s, netOrder, srcOrder, pad).log == []
    ensures var nets' := Build(s, netOrder, srcOrder, pad, now).nets;
            id in nets' && nets'[id].rec == s.nets[id].rec && nets'[id].myNet == s.nets[id].myNet
  {
    var nets' := Build(s, netOrder, srcOrder, pad, now).nets;
    BuildGrowsFresh(s, netOrder, srcOrder, pad, now);
    assert id in Labels(s.nets) && id in Labels(nets');
    assert Labels(nets')[id] == Labels(s.nets)[id];
    BuildTracesNet(s, netOrder, srcOrder, pad, now, id);
    assert Stored(s.nets, id) + [] == [s.nets[id].rec];
  }

  lemma SubsetOfSameSize<T>(a: set<T>, b: set<T>)
    requires a <= b && |a| == |b|
    ensures a == b
  {
    assert |b - a| == 0;
  }

  lemma OnlyElement<T>(s: seq<T>, x: T)
    requires |s| == 1 && forall y :: y in s ==> y == x
    ensures s == [x]
  {
    assert s[0] in s;
  }

  lemma OneUnknown(s: State, srcOrder: seq<ReportKey>, k: ReportKey)
    requires Lists(srcOrder, s.source.Keys) && UnseenKeys(s) == {k}
    ensures k in s.source
    ensures Unknown(Reports(s.source, srcOrder), HistorySigs(s.history)) == [s.source[k]]
  {
    var unknown := Unknown(Reports(s.source, srcOrder), HistorySigs(s.history));
    assert k in UnseenKeys(s);
    UnknownSize(s, srcOrder, s.source.Keys);
    assert UnseenKeys(s) == UnseenAmong(s, s.source.Keys);
    forall r | r in unknown
      ensures r == s.source[k]
    {
      var l := UnknownIsUnseen(s, srcOrder, r);
    }
    OnlyElement(unknown, s.source[k]);
  }

  /** A build with one unprocessed source row routes that row, whatever the read order. */
  lemma OneUnseenBuild(s: State, netOrder: seq<int>, srcOrder: seq<ReportKey>, pad: real, k: ReportKey)
    requires ReadOrders(s, netOrder, srcOrder) && SourceOk(s.source) && UnseenKeys(s) == {k}
    ensures var p, before := BuildPass(s, netOrder, srcOrder, pad), LoadRows(s.nets, netOrder);
            && p.rows == StepRows(before, s.source[k], pad)
            && p.log == [EntryFor(before, s.source[k], pad)]
  {
    var before, r := LoadRows(s.nets, netOrder), s.source[k];
    SourceSigsDistinct(s, srcOrder);
    OneUnknown(s, srcOrder, k);
    if |s.history| == 0 {
      assert HistorySigs(s.history) == {};
    }
    PassIsUnknownPass(before, HistorySigs(s.history), Reports(s.source, srcOrder), |s.history| > 0, pad);
    PassAppend(Start(before, {}), [], r, false, pad);
    assert [] + [r] == [r];
  }

  /* ------------------------------------------------------------------ idempotence */

  /** No two processed reports share a net and an FF_ID. */
  ghost predicate NoSharedSlot(log: seq<Entry>) {
    forall i, j :: 0 <= i < j < |log| ==> SlotOf(log[i]) != SlotOf(log[j])
  }

  lemma {:induction false} SlotsSize(log: seq<Entry>)
    ensures |Slots(log)| <= |log|
    ensures |Slots(log)| == |log| <==> NoSharedSlot(log)
  {
    if |log| > 0 {
      var n := |log| - 1;
      SlotsSize(log[..n]);
      SlotsAppend(log[..n], log[n]);
      assert log == log[..n] + [log[n]];
      if NoSharedSlot(log) {
        assert NoSharedSlot(log[..n]);
      }
    }
  }

  lemma SlotsAppend(log: seq<Entry>, e: Entry)
    ensures Slots(log + [e]) == Slots(log) + {SlotOf(e)}
    ensures SlotOf(e) in Slots(log) <==> exists k :: 0 <= k < |log| && SlotOf(log[k]) == SlotOf(e)
  {
    var more := log + [e];
    forall s | s in Slots(log) + {SlotOf(e)}
      ensures s in Slots(more)
    {
      if s in Slots(log) {
        var k :| 0 <= k < |log| && SlotOf(log[k]) == s;
        assert SlotOf(more[k]) == s;
      } else {
        assert SlotOf(more[|log|]) == s;
      }
    }
  }

  /** The promise that a re-run is a no-op holds exactly when no two of the reports processed by the first
      run went to one net with one FF_ID. */
  lemma RerunSkipsAllIff(s: State, netOrder: seq<int>, srcOrder: seq<ReportKey>, pad: real, now: int)
    requires ReadOrders(s, netOrder, srcOrder) && SourceOk(s.source) && FreshTime(s.history, now)
    ensures UnseenKeys(Build(s, netOrder, srcOrder, pad, now)) == {} <==>
            NoSharedSlot(BuildPass(s, netOrder, srcOrder, pad).log)
  {
    var log := BuildPass(s, netOrder, srcOrder, pad).log;
    BuildCutsUnseen(s, netOrder, srcOrder, pad, now);
    LogSize(s, netOrder, srcOrder, pad);
    SlotsSize(log);
  }

  lemma {:induction false} FoldedTwice(log: seq<Entry>, i: nat, j: nat)
    requires i < j < |log| && log[i].netId == log[j].netId
    ensures |Folded(log, log[j].netId)| >= 2
  {
    var n := |log| - 1;
    if j == n {
      var k := FoldedHas(log[..n], i);
    } else {
      FoldedTwice(log[..n], i, j);
    }
  }

  lemma TwoFoldsOneStation(m: Member, base: seq<Record>, got: seq<Record>, a: nat, b: nat)
    requires Traced(m, base, got) && |got| >= 2 && a < |got| && b < |got|
    ensures got[a].rdfs.Some? && got[a].rdfs == got[b].rdfs
  {
    assert (base + got)[|base| + a] == got[a] && (base + got)[|base| + b] == got[b];
  }

  /** Two reports that share a slot come from one station, and name it. */
  lemma SharedSlotSharesStation(before: seq<Member>, p: Pass, i: nat, j: nat)
    requires PassOk(before, p) && i < j < |p.log| && SlotOf(p.log[i]) == SlotOf(p.log[j])
    ensures p.log[i].report.rdfs.Some? && p.log[i].report.rdfs == p.log[j].report.rdfs
  {
    var e := p.log[j];
    assert EntryKnown(e, p.rows);
    var m :| 0 <= m < |p.rows| && p.rows[m].netId == e.netId && p.rows[m].myNet == e.myNet;
    var a := FoldedHas(p.log, i);
    var b := FoldedHas(p.log, j);
    FoldedTwice(p.log, i, j);
    TwoFoldsOneStation(p.rows[m], Base(before, m), Folded(p.log, e.netId), a, b);
  }

  /** Two unprocessed source rows with one FF_ID at one named station. */
  ghost predicate Twins(s: State, k: ReportKey, l: ReportKey) {
    && Unseen(s, k) && Unseen(s, l) && k != l && k.ffId == l.ffId
    && s.source[k].rdfs.Some? && s.source[k].rdfs == s.source[l].rdfs
  }

  ghost predicate EmittersDiffer(s: State) {
    forall k, l :: !Twins(s, k, l)
  }

  /** A condition on the source alone under which a re-run skips everything. */
  lemma DifferentEmittersSettle(s: State, netOrder: seq<int>, srcOrder: seq<ReportKey>, pad: real, now: int)
    requires ReadOrders(s, netOrder, srcOrder) && SourceOk(s.source) && FreshTime(s.history, now)
    requires EmittersDiffer(s)
    ensures UnseenKeys(Build(s, netOrder, srcOrder, pad, now)) == {}
  {
    var p := BuildPass(s, netOrder, srcOrder, pad);
    BuildIsPass(s, netOrder, srcOrder, pad, now);
    SavedAreUnseen(s, netOrder, srcOrder, pad);
    forall i, j | 0 <= i < j < |p.log|
      ensures SlotOf(p.log[i]) != SlotOf(p.log[j])
    {
      var k := LoggedKey(s, netOrder, srcOrder, pad, i);
      var l := LoggedKey(s, netOrder, srcOrder, pad, j);
      assert Sig(LogReports(p.log)[i]) != Sig(LogReports(p.log)[j]);
      assert k in s.source && l in s.source && k != l;
      assert !Twins(s, k, l);
      if SlotOf(p.log[i]) == SlotOf(p.log[j]) {
        SharedSlotSharesStation(LoadRows(s.nets, netOrder), p, i, j);
      }
    }
    RerunSkipsAllIff(s, netOrder, srcOrder, pad, now);
  }

  lemma LoggedKey(s: State, netOrder: seq<int>, srcOrder: seq<ReportKey>, pad: real, i: nat) returns (k: ReportKey)
    requires ReadOrders(s, netOrder, srcOrder) && SourceOk(s.source)
    requires i < |BuildPass(s, netOrder, srcOrder, pad).log|
    ensures Unseen(s, k) && s.source[k] == BuildPass(s, netOrder, srcOrder, pad).log[i].report
  {
    BuildRunsUnseen(s, netOrder, srcOrder, pad);
    k := UnknownIsUnseen(s, srcOrder, LogReports(BuildPass(s, netOrder, srcOrder, pad).log)[i]);
  }

  lemma {:induction false} UnknownConcat(a: seq<Record>, b: seq<Record>, known: set<Signature>)
    ensures Unknown(a + b, known) == Unknown(a, known) + Unknown(b, known)
  {
    if |b| == 0 {
      assert a + b == a;
    } else {
      var n := |b| - 1;
      assert (a + b)[..|a + b| - 1] == a + b[..n];
      UnknownConcat(a, b[..n], known);
    }
  }

  lemma {:induction false} LogPrefix(p: Pass, a: seq<Record>, b: seq<Record>, guarded: bool, pad: real)
    ensures RunPass(p, a, guarded, pad).log <= RunPass(p, a + b, guarded, pad).log
  {
    if |b| == 0 {
      assert a + b == a;
    } else {
      var n := |b| - 1;
      assert (a + b)[..|a + b| - 1] == a + b[..n];
      LogPrefix(p, a, b[..n], guarded, pad);
    }
  }

  lemma LogAppend(p: Pass, reports: seq<Record>, r: Record, pad: real)
    ensures var front, all := RunPass(p, reports, false, pad), RunPass(p, reports + [r], false, pad);
            all.rows == StepRows(front.rows, r, pad) && all.log == front.log + [EntryFor(front.rows, r, pad)]
  {
    PassAppend(p, reports, r, false, pad);
  }

  lemma OneLogged(p: Pass, a: Record, pad: real)
    requires p.log == []
    ensures var one := RunPass(p, [a], false, pad);
            one.rows == StepRows(p.rows, a, pad) && one.log == [EntryFor(p.rows, a, pad)]
  {
    LogAppend(p, [], a, pad);
    assert [] + [a] == [a];
  }

  lemma NextLogged(p: Pass, one: seq<Record>, two: seq<Record>, rows: seq<Member>, e: Entry, b: Record, pad: real)
    requires two == one + [b]
    requires RunPass(p, one, false, pad).rows == rows && RunPass(p, one, false, pad).log == [e]
    ensures RunPass(p, two, false, pad).log == [e, EntryFor(rows, b, pad)]
  {
    LogAppend(p, one, b, pad);
  }

  lemma TwoLogged(p: Pass, a: Record, b: Record, pad: real)
    requires p.log == []
    ensures RunPass(p, [a, b], false, pad).log == [EntryFor(p.rows, a, pad), EntryFor(StepRows(p.rows, a, pad), b, pad)]
  {
    OneLogged(p, a, pad);
    NextLogged(p, [a], [a, b], StepRows(p.rows, a, pad), EntryFor(p.rows, a, pad), b, pad);
  }

  lemma PassLogsUnknown(s: State, netOrder: seq<int>, srcOrder: seq<ReportKey>, pad: real)
    requires ReadOrders(s, netOrder, srcOrder) && SourceOk(s.source)
    ensures BuildPass(s, netOrder, srcOrder, pad).log ==
            RunPass(Start(LoadRows(s.nets, netOrder), {}),
                Unknown(Reports(s.source, srcOrder), HistorySigs(s.history)), false, pad).log
  {
    SourceSigsDistinct(s, srcOrder);
    if |s.history| == 0 {
      assert HistorySigs(s.history) == {};
    }
    PassIsUnknownPass(LoadRows(s.nets, netOrder), HistorySigs(s.history), Reports(s.source, srcOrder),
        |s.history| > 0, pad);
  }
}
