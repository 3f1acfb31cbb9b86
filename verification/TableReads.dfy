/** The orders in which the source table can be read, and what a caller can tell of a re-run from the tables alone. */
module TableReads {
  import opened Records
  import opened NetBuilding
  import opened Passes
  import opened Pipeline
  import opened Builds
  import opened Convergence

  /** The FF_ID is the partition key and the LTI the clustering key, latest first: a full read returns the
      rows of one FF_ID together and in that order, and the FF_IDs in any order. */
  ghost predicate TableOrder(order: seq<ReportKey>) {
    && (forall i, j :: 0 <= i < j < |order| && order[i].ffId == order[j].ffId ==> order[j].lti < order[i].lti)
    && (forall i, m, j :: 0 <= i < m < j < |order| && order[i].ffId == order[j].ffId ==> order[m].ffId == order[i].ffId)
  }

  /** The rows of one FF_ID, as they are read. */
  ghost predicate IsPartition(part: seq<ReportKey>, keys: set<ReportKey>, ffId: int) {
    && (forall k :: k in part <==> k in keys && k.ffId == ffId)
    && (forall i, j :: 0 <= i < j < |part| ==> part[j].lti < part[i].lti)
  }

  lemma {:induction false} LatestKey(keys: set<ReportKey>) returns (k: ReportKey)
    requires keys != {}
    ensures k in keys && forall l :: l in keys ==> l.lti <= k.lti
    decreases keys
  {
    var x := AnyOf(keys);
    var rest := keys - {x};
    assert keys == rest + {x};
    if rest == {} {
      k := x;
    } else {
      var y := LatestKey(rest);
      k := if y.lti < x.lti then x else y;
    }
  }

  lemma {:induction false} Descending(keys: set<ReportKey>, ffId: int) returns (part: seq<ReportKey>)
    requires forall k :: k in keys ==> k.ffId == ffId
    ensures IsPartition(part, keys, ffId)
    decreases keys
  {
    if keys == {} {
      part := [];
    } else {
      var k := LatestKey(keys);
      var rest := Descending(keys - {k}, ffId);
      part := [k] + rest;
      forall i | 0 <= i < |rest|
        ensures rest[i].lti < k.lti
      {
        assert rest[i] in keys - {k};
        assert rest[i] == ReportKey(ffId, rest[i].lti) && k == ReportKey(ffId, k.lti);
      }
    }
  }

  lemma PartitionThenRest(part: seq<ReportKey>, rest: seq<ReportKey>, keys: set<ReportKey>, others: set<ReportKey>,
                          ffId: int)
    requires IsPartition(part, keys, ffId) && TableOrder(rest) && Lists(rest, others)
    requires forall k :: k in others <==> k in keys && k.ffId != ffId
    ensures TableOrder(part + rest) && Lists(part + rest, keys)
  {
    assert forall i :: 0 <= i < |part| ==> part[i] in part && part[i].ffId == ffId;
    assert forall i :: 0 <= i < |rest| ==> rest[i] in rest && rest[i].ffId != ffId;
  }

  /** Every set of rows can be read in a table order. */
  lemma {:induction false} TableOrderExists(keys: set<ReportKey>) returns (order: seq<ReportKey>)
    ensures TableOrder(order) && Lists(order, keys)
    decreases keys
  {
    if keys == {} {
      order := [];
    } else {
      var ffId := AnyOf(keys).ffId;
      var own, others := set k | k in keys && k.ffId == ffId, set k | k in keys && k.ffId != ffId;
      assert AnyOf(keys) !in others;
      var part := Descending(own, ffId);
      var rest := TableOrderExists(others);
      PartitionThenRest(part, rest, keys, others, ffId);
      order := part + rest;
    }
  }

  /** Any FF_ID can be the first one read. */
  lemma PartitionFirst(part: seq<ReportKey>, keys: set<ReportKey>, ffId: int) returns (rest: seq<ReportKey>)
    requires IsPartition(part, keys, ffId)
    ensures TableOrder(part + rest) && Lists(part + rest, keys)
  {
    var others := set k | k in keys && k.ffId != ffId;
    rest := TableOrderExists(others);
    PartitionThenRest(part, rest, keys, others, ffId);
  }

  /* -------------------------------------------------------------- one FF_ID first */

  /** The log of routing the unprocessed rows among `part` and nothing else. */
  function DryRun(s: State, netOrder: seq<int>, part: seq<ReportKey>, pad: real): seq<Entry>
    requires forall k :: k in netOrder ==> k in s.nets
    requires forall k :: k in part ==> k in s.source
  {
    RunPass(Start(LoadRows(s.nets, netOrder), {}), Unknown(Reports(s.source, part), HistorySigs(s.history)), false,
        pad).log
  }

  /** A build that reads `part` first starts with its dry run. */
  lemma DryRunFirst(s: State, netOrder: seq<int>, part: seq<ReportKey>, rest: seq<ReportKey>, pad: real)
    requires ReadOrders(s, netOrder, part + rest) && SourceOk(s.source)
    ensures forall k :: k in part ==> k in part + rest
    ensures DryRun(s, netOrder, part, pad) <= BuildPass(s, netOrder, part + rest, pad).log
  {
    assert forall k :: k in rest ==> k in part + rest;
    var known := HistorySigs(s.history);
    var first, later := Reports(s.source, part), Reports(s.source, rest);
    assert Reports(s.source, part + rest) == first + later;
    PassLogsUnknown(s, netOrder, part + rest, pad);
    UnknownConcat(first, later, known);
    LogPrefix(Start(LoadRows(s.nets, netOrder), {}), Unknown(first, known), Unknown(later, known), false, pad);
  }

  lemma SharedInPrefix(log: seq<Entry>, more: seq<Entry>)
    requires log <= more && !NoSharedSlot(log)
    ensures !NoSharedSlot(more)
  {
    var i, j :| 0 <= i < j < |log| && SlotOf(log[i]) == SlotOf(log[j]);
    assert more[i] == log[i] && more[j] == log[j];
  }

  /** On any tables: when the unprocessed rows of one FF_ID, routed on their own and latest first, put two
      into one net, the promise fails in a read order that the table can return. */
  lemma TwinsTogetherBreak(s: State, netOrder: seq<int>, pad: real, now: int, ffId: int, part: seq<ReportKey>)
    returns (srcOrder: seq<ReportKey>)
    requires Lists(netOrder, s.nets.Keys) && SourceOk(s.source) && FreshTime(s.history, now)
    requires IsPartition(part, s.source.Keys, ffId) && !NoSharedSlot(DryRun(s, netOrder, part, pad))
    ensures TableOrder(srcOrder) && Lists(srcOrder, s.source.Keys)
    ensures UnseenKeys(Build(s, netOrder, srcOrder, pad, now)) != {}
  {
    var rest := PartitionFirst(part, s.source.Keys, ffId);
    srcOrder := part + rest;
    DryRunFirst(s, netOrder, part, rest, pad);
    SharedInPrefix(DryRun(s, netOrder, part, pad), BuildPass(s, netOrder, srcOrder, pad).log);
    RerunSkipsAllIff(s, netOrder, srcOrder, pad, now);
  }

  /* ---------------------------------------------------------- one new net a station */

  /** While the rows of one FF_ID are routed: the stored nets of `station` are untouched, at most one new net
      (`home`) is at the station and shows the FF_ID, and every report of the station has gone to it. */
  ghost predicate AtHome(before: seq<Member>, rows: seq<Member>, log: seq<Entry>,
                         station: Option<string>, ffId: int, home: Option<nat>) {
    && |before| <= |rows|
    && (forall i :: 0 <= i < |before| ==> rows[i].rec.rdfs == before[i].rec.rdfs)
    && (forall i :: 0 <= i < |before| && before[i].rec.rdfs == station ==> rows[i] == before[i])
    && (home.Some? ==>
          && |before| <= home.value < |rows|
          && rows[home.value].rec.rdfs == station && rows[home.value].rec.ffId == Some(ffId))
    && (forall i :: |before| <= i < |rows| && home != Some(i) ==> rows[i].rec.rdfs != station)
    && (forall k :: 0 <= k < |log| && log[k].report.rdfs == station ==>
          home.Some? && log[k].netId == rows[home.value].netId)
  }

  /** A fold keeps the station of a net, and the FF_ID when the report has the same. */
  lemma AbsorbKeeps(m: Member, r: Record)
    requires m.rec.rdfs == r.rdfs
    ensures Absorb(m, r).rec.rdfs == m.rec.rdfs && Absorb(m, r).netId == m.netId
    ensures m.rec.ffId == r.ffId ==> Absorb(m, r).rec.ffId == m.rec.ffId
  {
  }

  lemma StepAway(before: seq<Member>, rows: seq<Member>, log: seq<Entry>,
                 station: Option<string>, ffId: int, home: Option<nat>, r: Record, pad: real)
    requires AtHome(before, rows, log, station, ffId, home) && r.rdfs != station
    ensures AtHome(before, StepRows(rows, r, pad), log + [EntryFor(rows, r, pad)], station, ffId, home)
  {
    var route := Route(rows, r, pad);
    if route.Some? {
      AbsorbKeeps(rows[route.value], r);
    }
  }

  /** A report that no stored net can take goes home, or to a new net. */
  lemma HomeRoute(before: seq<Member>, rows: seq<Member>, log: seq<Entry>,
                  station: Option<string>, ffId: int, home: Option<nat>, r: Record, pad: real)
    requires AtHome(before, rows, log, station, ffId, home) && station.Some?
    requires r.rdfs == station && r.ffId == Some(ffId)
    requires forall i :: 0 <= i < |before| ==> !Matches(before[i], r, pad)
    ensures Route(rows, r, pad) == home
  {
    assert forall i :: 0 <= i < |rows| && home != Some(i) ==> !Matches(rows[i], r, pad);
    if home.Some? {
      assert IsRoute(rows, r, pad, home.value);
      RouteIsUnique(rows, r, pad, home.value);
    }
  }

  lemma StepHome(before: seq<Member>, rows: seq<Member>, log: seq<Entry>,
                 station: Option<string>, ffId: int, home: Option<nat>, r: Record, pad: real)
    returns (home': Option<nat>)
    requires AtHome(before, rows, log, station, ffId, home) && station.Some?
    requires r.rdfs == station && r.ffId == Some(ffId)
    requires forall i :: 0 <= i < |before| ==> !Matches(before[i], r, pad)
    ensures AtHome(before, StepRows(rows, r, pad), log + [EntryFor(rows, r, pad)], station, ffId, home')
  {
    HomeRoute(before, rows, log, station, ffId, home, r, pad);
    if home.Some? {
      AbsorbKeeps(rows[home.value], r);
      home' := home;
    } else {
      home' := Some(|rows|);
    }
  }

  lemma {:induction false} ReportsGoHome(before: seq<Member>, reports: seq<Record>,
                                         station: Option<string>, ffId: int, pad: real)
    returns (home: Option<nat>)
    requires station.Some? && forall k :: 0 <= k < |reports| ==> reports[k].ffId == Some(ffId)
    requires forall k, i :: 0 <= k < |reports| && reports[k].rdfs == station && 0 <= i < |before| ==>
               !Matches(before[i], reports[k], pad)
    ensures var p := RunPass(Start(before, {}), reports, false, pad);
            AtHome(before, p.rows, p.log, station, ffId, home)
  {
    if |reports| == 0 {
      home := None;
    } else {
      var n := |reports| - 1;
      var front := reports[..n];
      assert forall k :: 0 <= k < n ==> front[k] == reports[k];
      home := ReportsGoHome(before, front, station, ffId, pad);
      var p := RunPass(Start(before, {}), front, false, pad);
      assert front + [reports[n]] == reports;
      LogAppend(Start(before, {}), front, reports[n], pad);
      if reports[n].rdfs == station {
        home := StepHome(before, p.rows, p.log, station, ffId, home, reports[n], pad);
      } else {
        StepAway(before, p.rows, p.log, station, ffId, home, reports[n], pad);
      }
    }
  }

  lemma TwoInOnePlace(log: seq<Entry>, i: nat, j: nat)
    requires i < |log| && j < |log| && i != j && SlotOf(log[i]) == SlotOf(log[j])
    ensures !NoSharedSlot(log)
  {
    assert i < j || j < i;
  }

  /** Two different reports of one station among them are routed into one net. */
  lemma TwoGoHome(before: seq<Member>, reports: seq<Record>, station: Option<string>, ffId: int, pad: real, i: nat,
                  j: nat)
    requires station.Some? && forall k :: 0 <= k < |reports| ==> reports[k].ffId == Some(ffId)
    requires forall k, m :: 0 <= k < |reports| && reports[k].rdfs == station && 0 <= m < |before| ==>
               !Matches(before[m], reports[k], pad)
    requires i < |reports| && j < |reports| && i != j && reports[i].rdfs == reports[j].rdfs == station
    requires LogReports(RunPass(Start(before, {}), reports, false, pad).log) == reports
    ensures !NoSharedSlot(RunPass(Start(before, {}), reports, false, pad).log)
  {
    var home := ReportsGoHome(before, reports, station, ffId, pad);
    var p := RunPass(Start(before, {}), reports, false, pad);
    var log := p.log;
    assert LogReports(log)[i] == reports[i] && LogReports(log)[j] == reports[j];
    assert log[i].netId == p.rows[home.value].netId && log[j].netId == p.rows[home.value].netId;
    TwoInOnePlace(log, i, j);
  }

  /* --------------------------------------------------- what can be checked before */

  /** No stored net can take an unprocessed row that has a twin. */
  ghost predicate TwinsAreStrangers(s: State, pad: real) {
    forall k, l, id :: Twins(s, k, l) && id in s.nets ==> !Matches(LoadedNet(s.nets, id), s.source[k], pad)
  }

  /** The next build skips everything, in whatever order the table returns the source to this one. */
  ghost predicate SettlesInAnyOrder(s: State, netOrder: seq<int>, pad: real, now: int)
    requires Lists(netOrder, s.nets.Keys)
  {
    forall o :: Lists(o, s.source.Keys) && TableOrder(o) ==> UnseenKeys(Build(s, netOrder, o, pad, now)) == {}
  }

  /** What a caller can check before the call: the promise that a re-run is a no-op holds in every order in
      which the source can be read exactly when no two unprocessed rows have one FF_ID at one named station.
      The tables must not hold a net that could take one of two such rows; empty tables hold none. */
  lemma NoTwinsIff(s: State, netOrder: seq<int>, pad: real, now: int)
    requires Lists(netOrder, s.nets.Keys) && SourceOk(s.source) && FreshTime(s.history, now)
    requires TwinsAreStrangers(s, pad)
    ensures SettlesInAnyOrder(s, netOrder, pad, now) <==> EmittersDiffer(s)
  {
    if EmittersDiffer(s) {
      forall o | Lists(o, s.source.Keys)
        ensures UnseenKeys(Build(s, netOrder, o, pad, now)) == {}
      {
        DifferentEmittersSettle(s, netOrder, o, pad, now);
      }
    } else {
      var k, l :| Twins(s, k, l);
      TwinsUnsettle(s, netOrder, pad, now, k, l);
    }
  }

  lemma UnknownOfPartition(s: State, part: seq<ReportKey>, ffId: int, r: Record) returns (k: ReportKey)
    requires IsPartition(part, s.source.Keys, ffId) && r in Unknown(Reports(s.source, part), HistorySigs(s.history))
    ensures Unseen(s, k) && k.ffId == ffId && s.source[k] == r
  {
    var reports := Reports(s.source, part);
    UnknownHas(reports, HistorySigs(s.history), r);
    var j :| 0 <= j < |reports| && reports[j] == r;
    k := part[j];
    assert k in part;
  }

  lemma UnseenIsUnknown(s: State, order: seq<ReportKey>, k: ReportKey)
    requires (forall x :: x in order ==> x in s.source) && k in order && Unseen(s, k)
    ensures s.source[k] in Unknown(Reports(s.source, order), HistorySigs(s.history))
  {
    var j :| 0 <= j < |order| && order[j] == k;
    assert Reports(s.source, order)[j] == s.source[k];
    UnknownHas(Reports(s.source, order), HistorySigs(s.history), s.source[k]);
  }

  /** A row at the station of two twins, with their FF_ID, is the twin of one of them. */
  lemma TwinOfEither(s: State, k: ReportKey, l: ReportKey, m: ReportKey)
    requires Twins(s, k, l) && Unseen(s, m) && m.ffId == k.ffId && s.source[m].rdfs == s.source[k].rdfs
    ensures Twins(s, m, if m == k then l else k)
  {
  }

  lemma StrangerToAll(s: State, netOrder: seq<int>, pad: real, k: ReportKey, l: ReportKey, m: ReportKey, i: nat)
    requires Lists(netOrder, s.nets.Keys) && TwinsAreStrangers(s, pad) && Twins(s, k, l)
    requires Unseen(s, m) && m.ffId == k.ffId && s.source[m].rdfs == s.source[k].rdfs && i < |netOrder|
    ensures !Matches(LoadRows(s.nets, netOrder)[i], s.source[m], pad)
  {
    var row, other := LoadRows(s.nets, netOrder)[i], if m == k then l else k;
    assert netOrder[i] in s.nets && row == LoadedNet(s.nets, netOrder[i]);
    TwinOfEither(s, k, l, m);
    assert Twins(s, m, other);
  }

  lemma PartitionSigsDistinct(s: State, part: seq<ReportKey>, ffId: int)
    requires SourceOk(s.source) && IsPartition(part, s.source.Keys, ffId)
    ensures DistinctSigs(Reports(s.source, part))
  {
    forall i, j | 0 <= i < j < |part|
      ensures Sig(s.source[part[i]]) != Sig(s.source[part[j]])
    {
      assert part[i] in part && part[j] in part;
    }
  }

  /** A dry run logs every unprocessed row. */
  lemma DryRunLogs(s: State, netOrder: seq<int>, part: seq<ReportKey>, ffId: int, pad: real)
    requires Lists(netOrder, s.nets.Keys) && SourceOk(s.source) && IsPartition(part, s.source.Keys, ffId)
    ensures LogReports(DryRun(s, netOrder, part, pad)) == Unknown(Reports(s.source, part), HistorySigs(s.history))
  {
    var before, reports, known := LoadRows(s.nets, netOrder), Reports(s.source, part), HistorySigs(s.history);
    PartitionSigsDistinct(s, part, ffId);
    PassIsUnknownPass(before, known, reports, true, pad);
    PassRunsUnknown(before, known, reports, true, pad);
  }

  lemma TwinsDryRun(s: State, netOrder: seq<int>, pad: real, k: ReportKey, l: ReportKey, part: seq<ReportKey>)
    requires Lists(netOrder, s.nets.Keys) && SourceOk(s.source) && TwinsAreStrangers(s, pad) && Twins(s, k, l)
    requires IsPartition(part, s.source.Keys, k.ffId)
    ensures !NoSharedSlot(DryRun(s, netOrder, part, pad))
  {
    var before := LoadRows(s.nets, netOrder);
    var reports := Unknown(Reports(s.source, part), HistorySigs(s.history));
    var station := s.source[k].rdfs;
    forall j | 0 <= j < |reports|
      ensures reports[j].ffId == Some(k.ffId)
      ensures forall i :: 0 <= i < |before| && reports[j].rdfs == station ==> !Matches(before[i], reports[j], pad)
    {
      var m := UnknownOfPartition(s, part, k.ffId, reports[j]);
      forall i | 0 <= i < |before| && reports[j].rdfs == station
        ensures !Matches(before[i], reports[j], pad)
      {
        StrangerToAll(s, netOrder, pad, k, l, m, i);
      }
    }
    UnseenIsUnknown(s, part, k);
    UnseenIsUnknown(s, part, l);
    DryRunLogs(s, netOrder, part, k.ffId, pad);
    var i :| 0 <= i < |reports| && reports[i] == s.source[k];
    var j :| 0 <= j < |reports| && reports[j] == s.source[l];
    TwoGoHome(before, reports, station, k.ffId, pad, i, j);
  }

  lemma TwinsUnsettle(s: State, netOrder: seq<int>, pad: real, now: int, k: ReportKey, l: ReportKey)
    requires Lists(netOrder, s.nets.Keys) && SourceOk(s.source) && FreshTime(s.history, now)
    requires TwinsAreStrangers(s, pad) && Twins(s, k, l)
    ensures !SettlesInAnyOrder(s, netOrder, pad, now)
  {
    var own := set x | x in s.source && x.ffId == k.ffId;
    var part := Descending(own, k.ffId);
    assert IsPartition(part, s.source.Keys, k.ffId);
    TwinsDryRun(s, netOrder, pad, k, l, part);
    var o := TwinsTogetherBreak(s, netOrder, pad, now, k.ffId, part);
  }

  /* ------------------------------------------------- one FF_ID, on any tables */

  /** Each report is dated, and earlier than the one before it. */
  ghost predicate LatestFirst(reports: seq<Record>) {
    && (forall i :: 0 <= i < |reports| ==> reports[i].lti.Some?)
    && (forall i, j :: 0 <= i < j < |reports| ==> reports[j].lti.value < reports[i].lti.value)
  }

  lemma HeadIn<T>(s: seq<T>)
    ensures |s| > 0 ==> s[0] in s
  {
  }

  lemma SameHead(a: seq<Record>, b: seq<Record>)
    requires LatestFirst(a) && LatestFirst(b) && |a| > 0 && forall r :: r in a <==> r in b
    ensures |b| > 0 && a[0] == b[0]
  {
    assert a[0] in b;
    var i :| 0 <= i < |b| && b[i] == a[0];
    assert b[0] in a;
    var j :| 0 <= j < |a| && a[j] == b[0];
  }

  lemma {:induction false} LatestFirstUnique(a: seq<Record>, b: seq<Record>)
    requires LatestFirst(a) && LatestFirst(b) && forall r :: r in a <==> r in b
    ensures a == b
  {
    if |a| == 0 {
      HeadIn(b);
    } else {
      SameHead(a, b);
      forall r
        ensures r in a[1..] <==> r in b[1..]
      {
        RestHas(a, r);
        RestHas(b, r);
      }
      LatestFirstUnique(a[1..], b[1..]);
      assert a == [a[0]] + a[1..] && b == [b[0]] + b[1..];
    }
  }

  lemma RestHas(a: seq<Record>, r: Record)
    requires LatestFirst(a) && |a| > 0
    ensures r in a[1..] <==> r in a && r != a[0]
  {
    assert a == [a[0]] + a[1..];
    if r in a[1..] {
      var i :| 0 <= i < |a[1..]| && a[1..][i] == r;
      assert a[i + 1] == r;
    }
  }

  /** Leaving out known reports keeps the order of the others. */
  lemma {:induction false} UnknownLatestFirst(reports: seq<Record>, known: set<Signature>)
    requires forall i :: 0 <= i < |reports| ==> reports[i].lti.Some?
    requires forall i, j :: 0 <= i < j < |reports| && Sig(reports[i]) !in known && Sig(reports[j]) !in known ==>
               reports[j].lti.value < reports[i].lti.value
    ensures LatestFirst(Unknown(reports, known))
  {
    if |reports| > 0 {
      var n := |reports| - 1;
      var front := Unknown(reports[..n], known);
      UnknownLatestFirst(reports[..n], known);
      forall i | 0 <= i < |front|
        ensures Sig(reports[n]) !in known ==> reports[n].lti.value < front[i].lti.value
      {
        UnknownHas(reports[..n], known, front[i]);
        var k :| 0 <= k < n && reports[..n][k] == front[i];
        assert reports[k] == front[i];
      }
    }
  }

  ghost predicate OnlyEmitter(s: State, ffId: int) {
    forall k :: Unseen(s, k) ==> k.ffId == ffId
  }

  lemma OrderLatestFirst(s: State, order: seq<ReportKey>, ffId: int)
    requires SourceOk(s.source) && OnlyEmitter(s, ffId) && TableOrder(order)
    requires forall k :: k in order ==> k in s.source
    ensures LatestFirst(Unknown(Reports(s.source, order), HistorySigs(s.history)))
  {
    var reports, known := Reports(s.source, order), HistorySigs(s.history);
    forall i | 0 <= i < |reports|
      ensures reports[i].lti == Some(order[i].lti)
      ensures Sig(reports[i]) !in known ==> order[i].ffId == ffId
    {
      assert order[i] in s.source;
      assert Sig(reports[i]) !in known ==> Unseen(s, order[i]);
    }
    UnknownLatestFirst(reports, known);
  }

  lemma PartitionIsTableOrder(part: seq<ReportKey>, keys: set<ReportKey>, ffId: int)
    requires IsPartition(part, keys, ffId)
    ensures TableOrder(part) && forall k :: k in part ==> k in keys
  {
    assert forall i :: 0 <= i < |part| ==> part[i] in part;
  }

  /** In every order the build routes the same reports in the same order: those of the only FF_ID, latest first. */
  lemma SameUnknown(s: State, part: seq<ReportKey>, order: seq<ReportKey>, ffId: int)
    requires SourceOk(s.source) && OnlyEmitter(s, ffId) && IsPartition(part, s.source.Keys, ffId)
    requires Lists(order, s.source.Keys) && TableOrder(order)
    ensures Unknown(Reports(s.source, order), HistorySigs(s.history)) ==
            Unknown(Reports(s.source, part), HistorySigs(s.history))
  {
    var known := HistorySigs(s.history);
    var a, b := Unknown(Reports(s.source, order), known), Unknown(Reports(s.source, part), known);
    PartitionIsTableOrder(part, s.source.Keys, ffId);
    OrderLatestFirst(s, order, ffId);
    OrderLatestFirst(s, part, ffId);
    forall r | r in a
      ensures r in b
    {
      var k := UnknownIsUnseen(s, order, r);
      UnseenIsUnknown(s, part, k);
    }
    forall r | r in b
      ensures r in a
    {
      var k := UnknownOfPartition(s, part, ffId, r);
      UnseenIsUnknown(s, order, k);
    }
    LatestFirstUnique(a, b);
  }

  /** When all unprocessed rows have one FF_ID the condition is exact on any tables: the promise holds in
      every order, and else in none, exactly when their dry run puts no two of them into one net. */
  lemma OneEmitterIff(s: State, netOrder: seq<int>, pad: real, now: int, ffId: int, part: seq<ReportKey>)
    requires Lists(netOrder, s.nets.Keys) && SourceOk(s.source) && FreshTime(s.history, now)
    requires OnlyEmitter(s, ffId) && IsPartition(part, s.source.Keys, ffId)
    ensures SettlesInAnyOrder(s, netOrder, pad, now) <==> NoSharedSlot(DryRun(s, netOrder, part, pad))
    ensures forall o :: Lists(o, s.source.Keys) && TableOrder(o) ==>
              (UnseenKeys(Build(s, netOrder, o, pad, now)) == {} <==> NoSharedSlot(DryRun(s, netOrder, part, pad)))
  {
    forall o | Lists(o, s.source.Keys) && TableOrder(o)
      ensures UnseenKeys(Build(s, netOrder, o, pad, now)) == {} <==> NoSharedSlot(DryRun(s, netOrder, part, pad))
    {
      PassLogsUnknown(s, netOrder, o, pad);
      SameUnknown(s, part, o, ffId);
      RerunSkipsAllIff(s, netOrder, o, pad, now);
    }
    var some := TableOrderExists(s.source.Keys);
  }
}
