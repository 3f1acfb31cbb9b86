/** What one build does to the net table. */
module Builds {
  import opened Records
  import opened NetBuilding
  import opened Passes
  import opened Grouping
  import opened Pipeline

  ghost predicate ReadOrders(s: State, netOrder: seq<int>, srcOrder: seq<ReportKey>) {
    Lists(netOrder, s.nets.Keys) && Lists(srcOrder, s.source.Keys)
  }

  lemma RowsAreLoaded(nets: map<int, NetRow>, order: seq<int>)
    requires Lists(order, nets.Keys)
    ensures Loaded(LoadRows(nets, order))
  {
  }

  /** A stored net as a build loads it. */
  function LoadedNet(nets: map<int, NetRow>, id: int): Member
    requires id in nets
  {
    Member(id, nets[id].myNet, nets[id].rec, None)
  }

  /** A report that only one stored net can take, or that net with the latest LTI, goes to it. */
  lemma RoutedTo(nets: map<int, NetRow>, order: seq<int>, r: Record, pad: real, id: int)
    requires Lists(order, nets.Keys) && id in nets && Matches(LoadedNet(nets, id), r, pad)
    requires forall x :: x in nets && x != id && Matches(LoadedNet(nets, x), r, pad) ==>
             Precedes(nets[x].rec.lti, nets[id].rec.lti)
    ensures var e := EntryFor(LoadRows(nets, order), r, pad); e.collapsed && e.netId == id
  {
    var rows := LoadRows(nets, order);
    var i :| 0 <= i < |order| && order[i] == id;
    forall j | 0 <= j < |rows| && j != i
      ensures rows[j] == LoadedNet(nets, order[j]) && order[j] != id
    {
    }
    assert IsRoute(rows, r, pad, i);
    RouteIsUnique(rows, r, pad, i);
  }

  lemma NoRoute(rows: seq<Member>, r: Record, pad: real)
    requires forall i :: 0 <= i < |rows| ==> !Matches(rows[i], r, pad)
    ensures EntryFor(rows, r, pad) == Entry(r, NextNetId(rows), NextMyNet(rows), false, None)
  {
  }

  lemma RoutedNowhere(nets: map<int, NetRow>, order: seq<int>, r: Record, pad: real)
    requires Lists(order, nets.Keys)
    requires forall id :: id in nets ==> !Matches(LoadedNet(nets, id), r, pad)
    ensures var rows := LoadRows(nets, order);
            EntryFor(rows, r, pad) == Entry(r, NextNetId(rows), NextMyNet(rows), false, None)
  {
    var rows := LoadRows(nets, order);
    forall j | 0 <= j < |rows|
      ensures !Matches(rows[j], r, pad)
    {
      assert order[j] in nets && rows[j] == LoadedNet(nets, order[j]);
    }
    NoRoute(rows, r, pad);
  }

  /** A stored net can take the report, in the cells of the two records. */
  predicate TakesInCells(rec: Record, r: Record, pad: real) {
    && r.rdfs.Some? && rec.rdfs.Some? && rec.rdfs.value == r.rdfs.value
    && ((r.ffId.Some? && rec.ffId.Some? && rec.ffId.value == r.ffId.value) || MeetsInCells(r, rec, pad))
  }

  lemma LoadedTakesIff(nets: map<int, NetRow>, id: int, r: Record, pad: real)
    requires id in nets
    ensures Matches(LoadedNet(nets, id), r, pad) <==> TakesInCells(nets[id].rec, r, pad)
  {
    BandTestIff(LoadedNet(nets, id), r, pad);
  }

  /** The date `a` is at least as late as `b`; a missing date is the earliest of all. */
  predicate NoEarlier(a: Option<int>, b: Option<int>) {
    b.None? || (a.Some? && a.value >= b.value)
  }

  /** On freshly loaded tables a report collapses exactly when some stored net can take it, as the cells say.
      It then goes to one that can and has the latest LTI of all that can, the first read of those with that
      LTI; otherwise it starts a net whose id is not in use. */
  lemma LoadedCollapsesIff(nets: map<int, NetRow>, order: seq<int>, r: Record, pad: real)
    requires Lists(order, nets.Keys)
    ensures var e := EntryFor(LoadRows(nets, order), r, pad);
            && (e.collapsed <==> exists id :: id in nets && TakesInCells(nets[id].rec, r, pad))
            && (!e.collapsed ==> e.netId !in nets)
            && (e.collapsed ==>
                  exists i :: 0 <= i < |order| && order[i] == e.netId && ChosenInCells(nets, order, r, pad, i))
  {
    var rows := LoadRows(nets, order);
    var e, route := EntryFor(rows, r, pad), Route(rows, r, pad);
    if route.Some? {
      LoadedTakesIff(nets, order[route.value], r, pad);
      RouteIsChosen(nets, order, r, pad, route.value);
    } else {
      forall id | id in nets
        ensures !TakesInCells(nets[id].rec, r, pad) && id != e.netId
      {
        var i :| 0 <= i < |order| && order[i] == id;
        assert rows[i] == LoadedNet(nets, id);
        LoadedTakesIff(nets, id, r, pad);
      }
    }
  }

  ghost predicate ChosenInCells(nets: map<int, NetRow>, order: seq<int>, r: Record, pad: real, i: int)
    requires Lists(order, nets.Keys)
  {
    && 0 <= i < |order| && order[i] in nets && TakesInCells(nets[order[i]].rec, r, pad)
    && forall j :: 0 <= j < |order| && order[j] in nets && TakesInCells(nets[order[j]].rec, r, pad) ==>
         && NoEarlier(nets[order[i]].rec.lti, nets[order[j]].rec.lti)
         && (j < i ==> !NoEarlier(nets[order[j]].rec.lti, nets[order[i]].rec.lti))
  }

  lemma RouteIsChosen(nets: map<int, NetRow>, order: seq<int>, r: Record, pad: real, i: nat)
    requires Lists(order, nets.Keys) && IsRoute(LoadRows(nets, order), r, pad, i)
    ensures ChosenInCells(nets, order, r, pad, i)
  {
    var rows := LoadRows(nets, order);
    forall j | 0 <= j < |order|
      ensures order[j] in nets && rows[j] == LoadedNet(nets, order[j])
      ensures Matches(rows[j], r, pad) <==> TakesInCells(nets[order[j]].rec, r, pad)
    {
      LoadedTakesIff(nets, order[j], r, pad);
    }
  }

  lemma {:induction false} TableHolds(rows: seq<Member>, now: int, i: nat)
    requires i < |rows| && DistinctIds(rows)
    ensures rows[i].netId in TableOf(rows, now)
    ensures TableOf(rows, now)[rows[i].netId] == NetRow(rows[i].myNet, rows[i].rec, now)
  {
    var last := |rows| - 1;
    if i < last {
      assert rows[i].netId != rows[last].netId;
      TableHolds(rows[..last], now, i);
    }
  }

  lemma {:induction false} TableSource(rows: seq<Member>, now: int, id: int) returns (i: nat)
    requires id in TableOf(rows, now)
    ensures i < |rows| && rows[i].netId == id
  {
    var last := |rows| - 1;
    if rows[last].netId == id {
      i := last;
    } else {
      i := TableSource(rows[..last], now, id);
    }
  }

  lemma {:induction false} TableSize(rows: seq<Member>, now: int)
    requires DistinctIds(rows)
    ensures |TableOf(rows, now)| == |rows|
  {
    if |rows| > 0 {
      var last := |rows| - 1;
      TableSize(rows[..last], now);
      var id := rows[last].netId;
      if id in TableOf(rows[..last], now) {
        var i := TableSource(rows[..last], now, id);
      }
      assert TableOf(rows, now).Keys == TableOf(rows[..last], now).Keys + {id};
    }
  }

  /** A build over two empty tables is a pass over nothing. */
  lemma BuildIsPass(s: State, netOrder: seq<int>, srcOrder: seq<ReportKey>, pad: real, now: int)
    requires ReadOrders(s, netOrder, srcOrder)
    ensures var p := BuildPass(s, netOrder, srcOrder, pad);
            Build(s, netOrder, srcOrder, pad, now) ==
              s.(nets := TableOf(p.rows, now), history := Logged(s.history, p.log, now))
    ensures PassOk(LoadRows(s.nets, netOrder), BuildPass(s, netOrder, srcOrder, pad))
  {
    RowsAreLoaded(s.nets, netOrder);
    PassKeepsTrace(LoadRows(s.nets, netOrder), HistorySigs(s.history), Reports(s.source, srcOrder), |s.history| > 0,
        pad);
    if |srcOrder| == 0 && |netOrder| == 0 {
      assert s.nets.Keys == {};
      assert s.nets == map[];
    }
  }

  /** Old nets keep their ids and labels; each new net has a label that no other net carries. */
  lemma BuildGrowsFresh(s: State, netOrder: seq<int>, srcOrder: seq<ReportKey>, pad: real, now: int)
    requires ReadOrders(s, netOrder, srcOrder)
    ensures var s' := Build(s, netOrder, srcOrder, pad, now);
            GrowsFresh(Labels(s.nets), Labels(s'.nets))
  {
    var before, p := LoadRows(s.nets, netOrder), BuildPass(s, netOrder, srcOrder, pad);
    var labels, labels' := Labels(s.nets), Labels(TableOf(p.rows, now));
    BuildIsPass(s, netOrder, srcOrder, pad, now);
    forall x | x in labels
      ensures x in labels' && labels'[x] == labels[x]
    {
      var i :| 0 <= i < |netOrder| && netOrder[i] == x;
      TableHolds(p.rows, now, i);
      assert p.rows[i].netId == before[i].netId;
    }
    forall x, y | x in labels' && x !in labels && SameLabel(labels', x, y)
      ensures x == y
    {
      FreshRow(s, netOrder, p.rows, now, x, y);
    }
  }

  lemma FreshRow(s: State, netOrder: seq<int>, rows: seq<Member>, now: int, x: int, y: int)
    requires Lists(netOrder, s.nets.Keys)
    requires Extends(LoadRows(s.nets, netOrder), rows) && DistinctIds(rows)
    requires x !in s.nets && SameLabel(Labels(TableOf(rows, now)), x, y)
    ensures x == y
  {
    var i := TableSource(rows, now, x);
    var j := TableSource(rows, now, y);
    TableHolds(rows, now, i);
    TableHolds(rows, now, j);
    assert forall k :: 0 <= k < |netOrder| ==> rows[k].netId == netOrder[k];
    assert i >= |netOrder|;
  }

  /** The stored record of a net, as the first of the reports folded into it. */
  function Stored(nets: map<int, NetRow>, id: int): seq<Record> {
    if id in nets then [nets[id].rec] else []
  }

  ghost predicate NetTraced(nets: map<int, NetRow>, rec: Record, log: seq<Entry>, id: int) {
    var all := Stored(nets, id) + Folded(log, id);
    && |all| > 0 && rec == FoldAll(all)
    && (forall k :: 0 <= k < |all| ==> all[k].rdfs == rec.rdfs)
    && (rec.rdfs.None? ==> |all| == 1)
  }

  /** Each net's record is the fold of its old record and the reports that the log routes to it. */
  lemma BuildTracesNet(s: State, netOrder: seq<int>, srcOrder: seq<ReportKey>, pad: real, now: int, id: int)
    requires ReadOrders(s, netOrder, srcOrder)
    requires id in Build(s, netOrder, srcOrder, pad, now).nets
    ensures NetTraced(s.nets, Build(s, netOrder, srcOrder, pad, now).nets[id].rec,
            BuildPass(s, netOrder, srcOrder, pad).log, id)
  {
    var before, p := LoadRows(s.nets, netOrder), BuildPass(s, netOrder, srcOrder, pad);
    BuildIsPass(s, netOrder, srcOrder, pad, now);
    var i := TableSource(p.rows, now, id);
    TableHolds(p.rows, now, i);
    assert Traced(p.rows[i], Base(before, i), Folded(p.log, id));
    assert forall k :: 0 <= k < |before| ==> p.rows[k].netId == before[k].netId && before[k].netId in s.nets;
    if id in s.nets {
      var j :| 0 <= j < |netOrder| && netOrder[j] == id;
      assert p.rows[j].netId == before[j].netId == id;
      assert i == j;
    }
    assert Base(before, i) == Stored(s.nets, id);
  }

  /* -------------------------------------------------------------- conservation */

  /** Some element of a set. */
  ghost function AnyOf<T>(s: set<T>): (x: T)
    requires s != {}
    ensures x in s
  {
    var x :| x in s;
    x
  }

  /** Every set can be read in some order. */
  lemma {:induction false} ListingExists<T(!new)>(keys: set<T>) returns (order: seq<T>)
    ensures Lists(order, keys)
    decreases keys
  {
    if keys == {} {
      order := [];
    } else {
      var k := AnyOf(keys);
      var rest := ListingExists(keys - {k});
      order := rest + [k];
    }
  }

  ghost function TotalOver(nets: map<int, NetRow>, ids: set<int>): int
    requires ids <= nets.Keys
  {
    if ids == {} then 0
    else
      var id := AnyOf(ids);
      Count(nets[id].rec.nti) + TotalOver(nets, ids - {id})
  }

  ghost function TableTotal(nets: map<int, NetRow>): int {
    TotalOver(nets, nets.Keys)
  }

  lemma {:induction false} TotalOverWithout(nets: map<int, NetRow>, ids: set<int>, id: int)
    requires id in ids && ids <= nets.Keys
    ensures TotalOver(nets, ids) == Count(nets[id].rec.nti) + TotalOver(nets, ids - {id})
  {
    var x := AnyOf(ids);
    if x != id {
      TotalOverWithout(nets, ids - {x}, id);
      TotalOverWithout(nets, ids - {id}, x);
      assert ids - {x} - {id} == ids - {id} - {x};
    }
  }

  lemma {:induction false} RowsTotalIsTotalOver(rows: seq<Member>, nets: map<int, NetRow>, ids: set<int>)
    requires DistinctIds(rows) && |rows| == |ids| && ids <= nets.Keys
    requires forall i :: 0 <= i < |rows| ==> rows[i].netId in ids && nets[rows[i].netId].rec == rows[i].rec
    ensures TotalOver(nets, ids) == RowsTotal(rows)
  {
    if |rows| > 0 {
      var last := |rows| - 1;
      var id := rows[last].netId;
      TotalOverWithout(nets, ids, id);
      assert forall i :: 0 <= i < last ==> rows[i].netId != rows[last].netId;
      RowsTotalIsTotalOver(rows[..last], nets, ids - {id});
    }
  }

  lemma {:induction false} ListingSize<T(!new)>(order: seq<T>, keys: set<T>)
    requires Lists(order, keys)
    ensures |order| == |keys|
  {
    if |order| == 0 {
      assert keys == {};
    } else {
      var n := |order| - 1;
      assert order == order[..n] + [order[n]];
      assert forall i :: 0 <= i < n ==> order[i] != order[n];
      ListingSize(order[..n], keys - {order[n]});
    }
  }

  lemma WrittenTotal(rows: seq<Member>, now: int)
    requires DistinctIds(rows)
    ensures |TableOf(rows, now)| == |rows| && TableTotal(TableOf(rows, now)) == RowsTotal(rows)
  {
    var nets := TableOf(rows, now);
    TableSize(rows, now);
    forall i | 0 <= i < |rows|
      ensures rows[i].netId in nets && nets[rows[i].netId].rec == rows[i].rec
    {
      TableHolds(rows, now, i);
    }
    assert |nets.Keys| == |rows|;
    RowsTotalIsTotalOver(rows, nets, nets.Keys);
  }

  lemma TableTotals(s: State, netOrder: seq<int>, srcOrder: seq<ReportKey>, pad: real, now: int)
    requires ReadOrders(s, netOrder, srcOrder)
    ensures var s', p := Build(s, netOrder, srcOrder, pad, now), BuildPass(s, netOrder, srcOrder, pad);
            && |s'.nets| == |p.rows|
            && TableTotal(s.nets) == RowsTotal(LoadRows(s.nets, netOrder))
            && TableTotal(s'.nets) == RowsTotal(p.rows)
  {
    var before, p := LoadRows(s.nets, netOrder), BuildPass(s, netOrder, srcOrder, pad);
    BuildIsPass(s, netOrder, srcOrder, pad, now);
    RowsAreLoaded(s.nets, netOrder);
    ListingSize(netOrder, s.nets.Keys);
    RowsTotalIsTotalOver(before, s.nets, s.nets.Keys);
    WrittenTotal(p.rows, now);
  }

  /** Nothing is lost or invented by a build: each source report is new, collapsed or skipped; the net
      count grows by the new ones; and the NTI of the processed reports is all that is added. */
  lemma BuildConserves(s: State, netOrder: seq<int>, srcOrder: seq<ReportKey>, pad: real, now: int)
    requires ReadOrders(s, netOrder, srcOrder)
    ensures var s', p := Build(s, netOrder, srcOrder, pad, now), BuildPass(s, netOrder, srcOrder, pad);
            && |p.log| + p.skipped == |s.source|
            && |s'.nets| == |s.nets| + Created(p.log)
            && TableTotal(s'.nets) == TableTotal(s.nets) + LogTotal(p.log)
  {
    PassConserves(LoadRows(s.nets, netOrder), HistorySigs(s.history), Reports(s.source, srcOrder), |s.history| > 0,
        pad);
    ListingSize(srcOrder, s.source.Keys);
    ListingSize(netOrder, s.nets.Keys);
    TableTotals(s, netOrder, srcOrder, pad, now);
  }
}
