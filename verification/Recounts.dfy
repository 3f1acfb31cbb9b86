/** What repeated builds over one source add to the intercept counts. */
module Recounts {
  import opened Records
  import opened NetBuilding
  import opened Passes
  import opened Pipeline
  import opened Builds
  import opened Convergence

  /** The NTI of a set of source rows. */
  ghost function KeysTotal(source: map<ReportKey, Record>, keys: set<ReportKey>): int
    requires keys <= source.Keys
  {
    if keys == {} then 0
    else
      var k := AnyOf(keys);
      Count(source[k].nti) + KeysTotal(source, keys - {k})
  }

  lemma {:induction false} KeysTotalWithout(source: map<ReportKey, Record>, keys: set<ReportKey>, k: ReportKey)
    requires k in keys && keys <= source.Keys
    ensures KeysTotal(source, keys) == Count(source[k].nti) + KeysTotal(source, keys - {k})
  {
    var x := AnyOf(keys);
    if x != k {
      KeysTotalWithout(source, keys - {x}, k);
      KeysTotalWithout(source, keys - {k}, x);
      assert keys - {x} - {k} == keys - {k} - {x};
    }
  }

  lemma {:induction false} KeysTotalPositive(source: map<ReportKey, Record>, keys: set<ReportKey>)
    requires keys <= source.Keys && forall k :: k in keys ==> Count(source[k].nti) > 0
    ensures KeysTotal(source, keys) >= 0 && (KeysTotal(source, keys) == 0 <==> keys == {})
  {
    if keys != {} {
      KeysTotalPositive(source, keys - {AnyOf(keys)});
    }
  }

  lemma {:induction false} LogTotalIsCount(log: seq<Entry>)
    ensures LogTotal(log) == TotalCount(LogReports(log))
  {
    if |log| > 0 {
      LogTotalIsCount(log[..|log| - 1]);
      assert LogReports(log)[..|log| - 1] == LogReports(log[..|log| - 1]);
    }
  }

  lemma UnseenAmongSplits(s: State, keys: set<ReportKey>, k: ReportKey)
    requires k in keys && keys <= s.source.Keys
    ensures KeysTotal(s.source, UnseenAmong(s, keys)) ==
            KeysTotal(s.source, UnseenAmong(s, keys - {k})) + (if Unseen(s, k) then Count(s.source[k].nti) else 0)
  {
    var all, rest := UnseenAmong(s, keys), UnseenAmong(s, keys - {k});
    if Unseen(s, k) {
      KeysTotalWithout(s.source, all, k);
      assert all - {k} == rest;
    } else {
      assert all == rest;
    }
  }

  lemma TotalCountSnoc(reports: seq<Record>, r: Record)
    ensures TotalCount(reports + [r]) == TotalCount(reports) + Count(r.nti)
  {
    assert (reports + [r])[..|reports|] == reports;
  }

  lemma {:induction false} UnknownTotal(s: State, order: seq<ReportKey>, keys: set<ReportKey>)
    requires Lists(order, keys) && keys <= s.source.Keys
    ensures TotalCount(Unknown(Reports(s.source, order), HistorySigs(s.history))) ==
            KeysTotal(s.source, UnseenAmong(s, keys))
  {
    if |order| > 0 {
      var n := |order| - 1;
      ListsFront(order, keys);
      assert order[n] in order;
      UnknownTotal(s, order[..n], keys - {order[n]});
      UnseenAmongSplits(s, keys, order[n]);
      assert Reports(s.source, order)[..n] == Reports(s.source, order[..n]);
      var front := Unknown(Reports(s.source, order[..n]), HistorySigs(s.history));
      TotalCountSnoc(front, s.source[order[n]]);
      assert front + [] == front;
    } else {
      assert keys == {};
    }
  }

  /** A build adds the NTI of the rows it finds unprocessed, whatever the read orders. */
  lemma BuildAdds(s: State, netOrder: seq<int>, srcOrder: seq<ReportKey>, pad: real, now: int)
    requires ReadOrders(s, netOrder, srcOrder) && SourceOk(s.source)
    ensures TableTotal(Build(s, netOrder, srcOrder, pad, now).nets) ==
            TableTotal(s.nets) + KeysTotal(s.source, UnseenKeys(s))
  {
    BuildConserves(s, netOrder, srcOrder, pad, now);
    BuildRunsUnseen(s, netOrder, srcOrder, pad);
    LogTotalIsCount(BuildPass(s, netOrder, srcOrder, pad).log);
    UnknownTotal(s, srcOrder, s.source.Keys);
    assert UnseenKeys(s) == UnseenAmong(s, s.source.Keys);
  }

  /** The NTI of the rows found unprocessed, over all the builds: a row counts once for each build that
      finds it so. */
  ghost function Recounted(s: State, runs: seq<Rerun>): int
    requires ValidReruns(s, runs)
    decreases |runs|
  {
    if |runs| == 0 then 0
    else
      var r := runs[0];
      KeysTotal(s.source, UnseenKeys(s)) + Recounted(Build(s, r.netOrder, r.srcOrder, r.pad, r.now), runs[1..])
  }

  lemma {:induction false} RebuildAdds(s: State, runs: seq<Rerun>)
    requires SourceOk(s.source) && ValidReruns(s, runs)
    ensures TableTotal(Rebuild(s, runs).nets) == TableTotal(s.nets) + Recounted(s, runs)
    decreases |runs|
  {
    if |runs| > 0 {
      var r := runs[0];
      BuildAdds(s, r.netOrder, r.srcOrder, r.pad, r.now);
      RebuildAdds(Build(s, r.netOrder, r.srcOrder, r.pad, r.now), runs[1..]);
    }
  }

  /** A row once processed into the history stays processed. */
  lemma UnseenShrinks(s: State, netOrder: seq<int>, srcOrder: seq<ReportKey>, pad: real, now: int)
    requires ReadOrders(s, netOrder, srcOrder) && SourceOk(s.source) && FreshTime(s.history, now)
    ensures var s' := Build(s, netOrder, srcOrder, pad, now);
            s'.source == s.source && UnseenKeys(s') <= UnseenKeys(s)
  {
    var s', log := Build(s, netOrder, srcOrder, pad, now), BuildPass(s, netOrder, srcOrder, pad).log;
    BuildIsPass(s, netOrder, srcOrder, pad, now);
    LoggedSigs(s.history, log, now);
    forall k | k in UnseenKeys(s')
      ensures k in UnseenKeys(s)
    {
      assert Unseen(s, k);
    }
  }

  ghost predicate UnseenCount(s: State) {
    forall k :: k in UnseenKeys(s) ==> Count(s.source[k].nti) > 0
  }

  /** Nothing more is added exactly when nothing was left unprocessed, if there is a build at all. */
  lemma {:induction false} RecountedNothing(s: State, runs: seq<Rerun>)
    requires SourceOk(s.source) && ValidReruns(s, runs) && UnseenCount(s)
    ensures Recounted(s, runs) >= 0
    ensures |runs| > 0 ==> (Recounted(s, runs) == 0 <==> UnseenKeys(s) == {})
    decreases |runs|
  {
    if |runs| > 0 {
      var r := runs[0];
      UnseenShrinks(s, r.netOrder, r.srcOrder, r.pad, r.now);
      RecountedNothing(Build(s, r.netOrder, r.srcOrder, r.pad, r.now), runs[1..]);
      KeysTotalPositive(s.source, UnseenKeys(s));
    }
  }

  /** Every intercept of the source is counted once by repeated builds exactly when no two reports processed
      by the first of them shared a net and an FF_ID; otherwise the counts come out too high. */
  lemma CountedOnceIff(s: State, runs: seq<Rerun>)
    requires SourceOk(s.source) && ValidReruns(s, runs) && |runs| >= 2 && UnseenCount(s)
    ensures var added := TableTotal(Rebuild(s, runs).nets) - TableTotal(s.nets);
            && added >= KeysTotal(s.source, UnseenKeys(s))
            && (added == KeysTotal(s.source, UnseenKeys(s)) <==>
                NoSharedSlot(BuildPass(s, runs[0].netOrder, runs[0].srcOrder, runs[0].pad).log))
  {
    var r := runs[0];
    RebuildAdds(s, runs);
    UnseenShrinks(s, r.netOrder, r.srcOrder, r.pad, r.now);
    RecountedNothing(Build(s, r.netOrder, r.srcOrder, r.pad, r.now), runs[1..]);
    RerunSkipsAllIff(s, r.netOrder, r.srcOrder, r.pad, r.now);
  }

  /* --------------------------------------------------------------- a source that breaks it */

  /** Two sightings of one emitter at one station, a day apart, one intercept each. */
  function Sighting(day: int): Record {
    Record(Some(1), Val(100.0), Val(10.0), Some("RDFS1"), Null, Null, Some(day), Some(day), Some(1), map[])
  }

  const FIRST := ReportKey(1, 10)
  const SECOND := ReportKey(1, 11)

  const TWO_SIGHTINGS := State(map[FIRST := Sighting(10), SECOND := Sighting(11)], map[], map[], map[])

  lemma SightingsOrder(srcOrder: seq<ReportKey>)
    requires Lists(srcOrder, TWO_SIGHTINGS.source.Keys)
    ensures srcOrder == [FIRST, SECOND] || srcOrder == [SECOND, FIRST]
  {
    ListingSize(srcOrder, TWO_SIGHTINGS.source.Keys);
    assert TWO_SIGHTINGS.source.Keys == {FIRST, SECOND};
    assert srcOrder[0] in srcOrder && srcOrder[1] in srcOrder && srcOrder[0] != srcOrder[1];
  }

  lemma SightingsShareSlot(a: Record, b: Record, pad: real)
    requires a.ffId == b.ffId == Some(1) && a.rdfs == b.rdfs == Some("RDFS1")
    ensures var log := RunPass(Start([], {}), [a, b], false, pad).log;
            |log| == 2 && SlotOf(log[0]) == SlotOf(log[1])
  {
    var p := Start([], {});
    assert [a, b][..1] == [a] && [a][..0] == [];
    var p1 := StepPass(p, a, false, pad);
    assert RunPass(p, [a], false, pad) == p1;
    assert p1.rows == [NewMember([], a)];
    assert IsRoute(p1.rows, b, pad, 0);
    RouteIsUnique(p1.rows, b, pad, 0);
  }

  /** The documented no-op fails for them: whatever the read order, the first build leaves one of the two
      out of the history, and the second build folds it in again, so that two intercepts count as three. */
  lemma SightingsCountedTwice(netOrder: seq<int>, srcOrder: seq<ReportKey>, pad: real, now: int,
                              netOrder': seq<int>, srcOrder': seq<ReportKey>, pad': real, later: int)
    requires ReadOrders(TWO_SIGHTINGS, netOrder, srcOrder)
    requires ReadOrders(Build(TWO_SIGHTINGS, netOrder, srcOrder, pad, now), netOrder', srcOrder')
    ensures var once := Build(TWO_SIGHTINGS, netOrder, srcOrder, pad, now);
            var twice := Build(once, netOrder', srcOrder', pad', later);
            |UnseenKeys(once)| == 1 && TableTotal(once.nets) == 2 && TableTotal(twice.nets) == 3
  {
    var once := Build(TWO_SIGHTINGS, netOrder, srcOrder, pad, now);
    FirstSightingBuild(netOrder, srcOrder, pad, now);
    SightingsAdd(once, netOrder', srcOrder', pad', later);
  }

  lemma {:induction false} UnitTotal(source: map<ReportKey, Record>, keys: set<ReportKey>)
    requires keys <= source.Keys && forall k :: k in keys ==> source[k].nti == Some(1)
    ensures KeysTotal(source, keys) == |keys|
  {
    if keys != {} {
      UnitTotal(source, keys - {AnyOf(keys)});
    }
  }

  /** A build over the two sightings adds one intercept for each it finds unprocessed. */
  lemma SightingsAdd(s: State, netOrder: seq<int>, srcOrder: seq<ReportKey>, pad: real, now: int)
    requires ReadOrders(s, netOrder, srcOrder) && s.source == TWO_SIGHTINGS.source
    ensures TableTotal(Build(s, netOrder, srcOrder, pad, now).nets) == TableTotal(s.nets) + |UnseenKeys(s)|
  {
    BuildAdds(s, netOrder, srcOrder, pad, now);
    UnitTotal(s.source, UnseenKeys(s));
  }

  lemma FirstSightingPass(netOrder: seq<int>, srcOrder: seq<ReportKey>, pad: real)
    requires ReadOrders(TWO_SIGHTINGS, netOrder, srcOrder)
    ensures var log := BuildPass(TWO_SIGHTINGS, netOrder, srcOrder, pad).log;
            |log| == 2 && SlotOf(log[0]) == SlotOf(log[1])
  {
    var s := TWO_SIGHTINGS;
    SightingsOrder(srcOrder);
    assert Reports(s.source, srcOrder) == [s.source[srcOrder[0]], s.source[srcOrder[1]]];
    assert |netOrder| == 0 by { ListingSize(netOrder, s.nets.Keys); }
    assert HistorySigs(s.history) == {};
    SightingsShareSlot(s.source[srcOrder[0]], s.source[srcOrder[1]], pad);
  }

  lemma OneSlot(log: seq<Entry>)
    requires |log| == 2 && SlotOf(log[0]) == SlotOf(log[1])
    ensures |Slots(log)| == 1
  {
    assert Slots(log) == {SlotOf(log[0])};
  }

  lemma OneSlotBuild(s: State, netOrder: seq<int>, srcOrder: seq<ReportKey>, pad: real, now: int)
    requires ReadOrders(s, netOrder, srcOrder) && SourceOk(s.source) && FreshTime(s.history, now)
    requires var log := BuildPass(s, netOrder, srcOrder, pad).log; |log| == 2 && SlotOf(log[0]) == SlotOf(log[1])
    ensures |UnseenKeys(s)| == 2 && |UnseenKeys(Build(s, netOrder, srcOrder, pad, now))| == 1
  {
    OneSlot(BuildPass(s, netOrder, srcOrder, pad).log);
    LogSize(s, netOrder, srcOrder, pad);
    BuildCutsUnseen(s, netOrder, srcOrder, pad, now);
  }

  lemma FirstSightingBuild(netOrder: seq<int>, srcOrder: seq<ReportKey>, pad: real, now: int)
    requires ReadOrders(TWO_SIGHTINGS, netOrder, srcOrder)
    ensures var once := Build(TWO_SIGHTINGS, netOrder, srcOrder, pad, now);
            once.source == TWO_SIGHTINGS.source && |UnseenKeys(once)| == 1 && TableTotal(once.nets) == 2
  {
    FirstSightingPass(netOrder, srcOrder, pad);
    OneSlotBuild(TWO_SIGHTINGS, netOrder, srcOrder, pad, now);
    SightingsAdd(TWO_SIGHTINGS, netOrder, srcOrder, pad, now);
  }
}
