/** Runs from empty tables with reports that share an FF_ID and a station: when they part, and when that keeps
    a re-run idle. */
module SharedId {
  import opened Records
  import opened NetBuilding
  import opened Passes
  import opened Pipeline
  import opened Builds
  import opened Convergence
  import opened TableReads
  import opened Machine
  import opened Runs

  /** The orders in which a build reads the tables, and its timestamp. */
  datatype Reads = Reads(netOrder: seq<int>, srcOrder: seq<ReportKey>, now: int)

  predicate Dated(r: Record) { r.ffId.Some? && r.lti.Some? }

  function SourceWith(source: map<ReportKey, Record>, r: Record): map<ReportKey, Record>
    requires Dated(r)
  {
    source[KeyFor(r) := r]
  }

  /** From empty tables: the reports arrive one at a time, each followed by a build. */
  function RunOfOne(a: Record, one: Reads, pad: real): seq<Event>
    requires Dated(a)
  {
    [] + [ChangeSource(SourceWith(map[], a))] + [RunBuild(one.netOrder, one.srcOrder, pad, one.now)]
  }

  function RunOfTwo(a: Record, b: Record, one: Reads, two: Reads, pad: real): seq<Event>
    requires Dated(a) && Dated(b)
  {
    RunOfOne(a, one, pad) + [ChangeSource(SourceWith(SourceWith(map[], a), b))]
                          + [RunBuild(two.netOrder, two.srcOrder, pad, two.now)]
  }

  function RunOfThree(a: Record, b: Record, c: Record, one: Reads, two: Reads, three: Reads, pad: real): seq<Event>
    requires Dated(a) && Dated(b) && Dated(c)
  {
    RunOfTwo(a, b, one, two, pad) + [ChangeSource(SourceWith(SourceWith(SourceWith(map[], a), b), c))]
                                  + [RunBuild(three.netOrder, three.srcOrder, pad, three.now)]
  }

  /** The builds read every row, in any order, at later and later times. */
  ghost predicate ReadsOk(a: Record, b: Record, c: Record, one: Reads, two: Reads, three: Reads)
    requires Dated(a) && Dated(b) && Dated(c)
  {
    && Lists(one.srcOrder, {KeyFor(a)}) && Lists(two.srcOrder, {KeyFor(a), KeyFor(b)})
    && Lists(three.srcOrder, {KeyFor(a), KeyFor(b), KeyFor(c)})
    && one.now < two.now < three.now
  }

  ghost predicate OneNet(w: World, all: seq<Record>) {
    && |all| > 0
    && (forall id :: id in w.st.nets <==> id == 100001)
    && (forall id :: id in w.folds <==> id == 100001)
    && w.st.nets[100001].rec == FoldAll(all) && w.folds[100001] == all
  }

  ghost predicate TwoNets(w: World, x: seq<Record>, y: seq<Record>) {
    && |x| > 0 && |y| > 0
    && (forall id :: id in w.st.nets <==> id == 100001 || id == 100002)
    && (forall id :: id in w.folds <==> id == 100001 || id == 100002)
    && w.st.nets[100001].rec == FoldAll(x) && w.folds[100001] == x
    && w.st.nets[100002].rec == FoldAll(y) && w.folds[100002] == y
  }

  lemma OneFolded(e: Entry, id: int)
    ensures Folded([e], id) == if e.netId == id then [e.report] else []
  {
    FoldedStep([], e, id);
    assert [] + [e] == [e];
    assert [] + [e.report] == [e.report];
  }

  lemma FoldAllSnoc(all: seq<Record>, r: Record)
    ensures FoldAll(all + [r]) == if |all| == 0 then r else Fold(FoldAll(all), r)
  {
    assert (all + [r])[..|all|] == all;
  }

  lemma FirstNet(w: World, w': World, r: Record, e: Entry, now: int)
    requires w == EMPTY && Dated(r) && Sighted(w, w', r, e, now) && e.netId == 100001
    ensures OneNet(w', [r])
  {
    OneFolded(e, 100001);
    assert [] + [r] == [r];
  }

  lemma FoldedIntoOne(w: World, w': World, all: seq<Record>, r: Record, e: Entry, now: int)
    requires OneNet(w, all) && Dated(r) && Sighted(w, w', r, e, now) && e.netId == 100001
    ensures OneNet(w', all + [r])
  {
    OneFolded(e, 100001);
    FoldAllSnoc(all, r);
  }

  lemma SecondNet(w: World, w': World, all: seq<Record>, r: Record, e: Entry, now: int)
    requires OneNet(w, all) && Dated(r) && Sighted(w, w', r, e, now) && e.netId == 100002
    ensures TwoNets(w', all, [r])
  {
    OneFolded(e, 100001);
    OneFolded(e, 100002);
    assert all + [] == all;
    assert [] + [r] == [r];
  }

  lemma FoldedIntoSecond(w: World, w': World, x: seq<Record>, y: seq<Record>, r: Record, e: Entry, now: int)
    requires TwoNets(w, x, y) && Dated(r) && Sighted(w, w', r, e, now) && e.netId == 100002
    ensures TwoNets(w', x, y + [r])
  {
    OneFolded(e, 100001);
    OneFolded(e, 100002);
    assert x + [] == x;
    FoldAllSnoc(y, r);
  }

  /* ------------------------------------------------------------ the two ways */

  predicate Meets(report: Record, net: Record, pad: real) {
    RecordBand(report).Some? && RecordBand(net).Some? && Overlaps(RecordBand(report).value, RecordBand(net).value, pad)
  }

  /** Three reports of one station: the first and the third share an FF_ID, and the second, with another
      one, is later than the first. */
  predicate SharedBetween(a: Record, b: Record, c: Record) {
    && Dated(a) && Dated(b) && Dated(c)
    && a.rdfs.Some? && a.rdfs == b.rdfs == c.rdfs
    && a.ffId == c.ffId && b.ffId != a.ffId && a.lti != c.lti && a.lti.value < b.lti.value
  }

  /** The second is folded into the net of the first and takes it over; the third meets its band no more. */
  predicate TakenOver(a: Record, b: Record, c: Record, pad: real) {
    SharedBetween(a, b, c) && Meets(b, a, pad) && !Meets(c, Fold(a, b), pad)
  }

  /** The second starts a net of its own, and the third meets the band of that. */
  predicate Outbid(a: Record, b: Record, c: Record, pad: real) {
    SharedBetween(a, b, c) && !Meets(b, a, pad) && Meets(c, b, pad)
  }

  lemma MatchesLoaded(nets: map<int, NetRow>, id: int, r: Record, pad: real)
    requires id in nets && r.rdfs.Some? && nets[id].rec.rdfs == r.rdfs && r.ffId.Some?
    ensures Matches(LoadedNet(nets, id), r, pad) <==> nets[id].rec.ffId == r.ffId || Meets(r, nets[id].rec, pad)
  {
  }

  lemma FirstBuild(a: Record, one: Reads, pad: real)
    requires Dated(a) && Lists(one.srcOrder, {KeyFor(a)}) && Lists(one.netOrder, Ids(0))
    ensures var run := RunOfOne(a, one, pad);
            && ValidRun(EMPTY, run)
            && OneNet(Exec(EMPTY, run), [a]) && Exec(EMPTY, run).st.source == SourceWith(map[], a)
            && Settled(Exec(EMPTY, run).st, {Sig(a)}, one.now)
  {
    assert SourceWith(map[], a).Keys == {KeyFor(a)};
    assert UnseenKeys(EMPTY.st) == {};
    AppendSight(EMPTY, [], {}, one.now - 1, a, one.netOrder, one.srcOrder, pad, one.now);
    var run := RunOfOne(a, one, pad);
    assert one.netOrder == [];
    RoutedNowhere(map[], [], a, pad);
    FirstNet(EMPTY, Exec(EMPTY, run), a, EntryFor(LoadRows(map[], []), a, pad), one.now);
    assert {} + {Sig(a)} == {Sig(a)};
  }

  /** A report that the only net can take goes to it; any other starts net 100002. */
  lemma OneNetRoutes(w: World, all: seq<Record>, order: seq<int>, r: Record, pad: real)
    requires OneNet(w, all) && Lists(order, Ids(1))
    ensures Lists(order, w.st.nets.Keys)
    ensures EntryFor(LoadRows(w.st.nets, order), r, pad).netId ==
            if Matches(LoadedNet(w.st.nets, 100001), r, pad) then 100001 else 100002
  {
    ListsSame(order, Ids(1), w.st.nets.Keys);
    if Matches(LoadedNet(w.st.nets, 100001), r, pad) {
      RoutedTo(w.st.nets, order, r, pad, 100001);
    } else {
      RoutedNowhere(w.st.nets, order, r, pad);
      assert 100001 in order;
    }
  }

  /** A report that both nets can take goes to the one with the later LTI. */
  lemma LaterNetTakes(w: World, x: seq<Record>, y: seq<Record>, order: seq<int>, r: Record, pad: real)
    requires TwoNets(w, x, y) && Lists(order, Ids(2))
    requires Matches(LoadedNet(w.st.nets, 100002), r, pad) && Precedes(FoldAll(x).lti, FoldAll(y).lti)
    ensures Lists(order, w.st.nets.Keys)
    ensures EntryFor(LoadRows(w.st.nets, order), r, pad).netId == 100002
  {
    ListsSame(order, Ids(2), w.st.nets.Keys);
    RoutedTo(w.st.nets, order, r, pad, 100002);
  }

  /** The second report is in the net of the first if its band meets it, and in its own otherwise. */
  ghost predicate AfterTwo(w: World, a: Record, b: Record, pad: real) {
    if Meets(b, a, pad) then OneNet(w, [a, b]) else TwoNets(w, [a], [b])
  }

  lemma SecondNetOf(w: World, w': World, a: Record, b: Record, e: Entry, pad: real, now: int)
    requires OneNet(w, [a]) && Dated(b) && Sighted(w, w', b, e, now)
    requires a.ffId != b.ffId && a.rdfs.Some? && a.rdfs == b.rdfs
    requires e.netId == if Meets(b, a, pad) then 100001 else 100002
    ensures AfterTwo(w', a, b, pad)
  {
    if Meets(b, a, pad) {
      FoldedIntoOne(w, w', [a], b, e, now);
      assert [a] + [b] == [a, b];
    } else {
      SecondNet(w, w', [a], b, e, now);
    }
  }

  lemma SecondRoutes(w: World, a: Record, b: Record, order: seq<int>, pad: real)
    requires OneNet(w, [a]) && Dated(b) && Lists(order, Ids(1))
    requires a.ffId != b.ffId && a.rdfs.Some? && a.rdfs == b.rdfs
    ensures Lists(order, w.st.nets.Keys)
    ensures EntryFor(LoadRows(w.st.nets, order), b, pad).netId == if Meets(b, a, pad) then 100001 else 100002
  {
    OneNetRoutes(w, [a], order, b, pad);
    MatchesLoaded(w.st.nets, 100001, b, pad);
  }

  lemma SecondSigIsNew(a: Record, b: Record)
    requires a.ffId != b.ffId
    ensures Sig(b) !in {Sig(a)}
  {
  }

  lemma SightSecond(run: seq<Event>, time: int, a: Record, b: Record, two: Reads, pad: real)
    requires Dated(a) && Dated(b) && a.ffId != b.ffId && a.rdfs.Some? && a.rdfs == b.rdfs && time < two.now
    requires ValidRun(EMPTY, run) && OneNet(Exec(EMPTY, run), [a]) && Exec(EMPTY, run).st.source == SourceWith(map[], a)
    requires Settled(Exec(EMPTY, run).st, {Sig(a)}, time)
    requires Lists(two.srcOrder, {KeyFor(a), KeyFor(b)}) && Lists(two.netOrder, Ids(1))
    ensures var s2 := SourceWith(SourceWith(map[], a), b);
            var more := run + [ChangeSource(s2)] + [RunBuild(two.netOrder, two.srcOrder, pad, two.now)];
            && ValidRun(EMPTY, more) && Exec(EMPTY, more).st.source == s2
            && Settled(Exec(EMPTY, more).st, {Sig(a)} + {Sig(b)}, two.now)
            && AfterTwo(Exec(EMPTY, more), a, b, pad)
  {
    var w, s2 := Exec(EMPTY, run), SourceWith(SourceWith(map[], a), b);
    SecondSigIsNew(a, b);
    assert s2.Keys == {KeyFor(a), KeyFor(b)};
    SecondRoutes(w, a, b, two.netOrder, pad);
    AppendSight(EMPTY, run, {Sig(a)}, time, b, two.netOrder, two.srcOrder, pad, two.now);
    var w' := Exec(EMPTY, run + [ChangeSource(s2)] + [RunBuild(two.netOrder, two.srcOrder, pad, two.now)]);
    SecondNetOf(w, w', a, b, EntryFor(LoadRows(w.st.nets, two.netOrder), b, pad), pad, two.now);
  }

  lemma SecondBuild(a: Record, b: Record, one: Reads, two: Reads, pad: real)
    requires Dated(a) && Dated(b) && a.ffId != b.ffId && a.rdfs.Some? && a.rdfs == b.rdfs && one.now < two.now
    requires Lists(one.srcOrder, {KeyFor(a)}) && Lists(one.netOrder, Ids(0))
    requires Lists(two.srcOrder, {KeyFor(a), KeyFor(b)}) && Lists(two.netOrder, Ids(1))
    ensures var run := RunOfTwo(a, b, one, two, pad);
            && ValidRun(EMPTY, run) && Exec(EMPTY, run).st.source == SourceWith(SourceWith(map[], a), b)
            && Settled(Exec(EMPTY, run).st, {Sig(a)} + {Sig(b)}, two.now)
            && AfterTwo(Exec(EMPTY, run), a, b, pad)
  {
    FirstBuild(a, one, pad);
    SightSecond(RunOfOne(a, one, pad), one.now, a, b, two, pad);
  }

  lemma ThirdSigIsNew(a: Record, b: Record, c: Record)
    requires SharedBetween(a, b, c)
    ensures Sig(c) !in {Sig(a)} + {Sig(b)}
  {
  }

  lemma TakenOverCells(a: Record, b: Record, c: Record)
    requires SharedBetween(a, b, c)
    ensures FoldAll([a, b]) == Fold(a, b) && Fold(a, b).rdfs == c.rdfs && Fold(a, b).ffId == b.ffId
  {
    assert [a, b][..1] == [a];
  }

  lemma SightThirdAlone(run: seq<Event>, time: int, a: Record, b: Record, c: Record, three: Reads, pad: real)
    requires TakenOver(a, b, c, pad) && time < three.now
    requires ValidRun(EMPTY, run) && OneNet(Exec(EMPTY, run), [a, b])
    requires Exec(EMPTY, run).st.source == SourceWith(SourceWith(map[], a), b)
    requires Settled(Exec(EMPTY, run).st, {Sig(a)} + {Sig(b)}, time)
    requires Lists(three.srcOrder, {KeyFor(a), KeyFor(b), KeyFor(c)}) && Lists(three.netOrder, Ids(1))
    ensures var s3 := SourceWith(SourceWith(SourceWith(map[], a), b), c);
            var more := run + [ChangeSource(s3)] + [RunBuild(three.netOrder, three.srcOrder, pad, three.now)];
            ValidRun(EMPTY, more) && TwoNets(Exec(EMPTY, more), [a, b], [c])
  {
    var w, s3 := Exec(EMPTY, run), SourceWith(SourceWith(SourceWith(map[], a), b), c);
    ThirdSigIsNew(a, b, c);
    TakenOverCells(a, b, c);
    ListsSame(three.srcOrder, {KeyFor(a), KeyFor(b), KeyFor(c)}, s3.Keys);
    OneNetRoutes(w, [a, b], three.netOrder, c, pad);
    AppendSight(EMPTY, run, {Sig(a)} + {Sig(b)}, time, c, three.netOrder, three.srcOrder, pad, three.now);
    var w' := Exec(EMPTY, run + [ChangeSource(s3)] + [RunBuild(three.netOrder, three.srcOrder, pad, three.now)]);
    MatchesLoaded(w.st.nets, 100001, c, pad);
    SecondNet(w, w', [a, b], c, EntryFor(LoadRows(w.st.nets, three.netOrder), c, pad), three.now);
  }

  /** The documented rule fails when another FF_ID has taken the net over: the third report, of the same
      FF_ID and station as the first, starts a net of its own, in every read order. */
  lemma TakenOverIdSplits(a: Record, b: Record, c: Record, one: Reads, two: Reads, three: Reads, pad: real)
    requires TakenOver(a, b, c, pad) && ReadsOk(a, b, c, one, two, three)
    requires Lists(one.netOrder, Ids(0)) && Lists(two.netOrder, Ids(1)) && Lists(three.netOrder, Ids(1))
    ensures var run := RunOfThree(a, b, c, one, two, three, pad);
            ValidRun(EMPTY, run) && TwoNets(Exec(EMPTY, run), [a, b], [c])
  {
    SecondBuild(a, b, one, two, pad);
    SightThirdAlone(RunOfTwo(a, b, one, two, pad), two.now, a, b, c, three, pad);
  }

  lemma OutbidRoutes(w: World, a: Record, b: Record, c: Record, order: seq<int>, pad: real)
    requires Outbid(a, b, c, pad) && TwoNets(w, [a], [b]) && Lists(order, Ids(2))
    ensures Lists(order, w.st.nets.Keys)
    ensures EntryFor(LoadRows(w.st.nets, order), c, pad).netId == 100002
  {
    MatchesLoaded(w.st.nets, 100002, c, pad);
    LaterNetTakes(w, [a], [b], order, c, pad);
  }

  lemma ThirdJoinsSecond(w: World, w': World, a: Record, b: Record, c: Record, e: Entry, now: int)
    requires Dated(c) && TwoNets(w, [a], [b]) && Sighted(w, w', c, e, now) && e.netId == 100002
    ensures TwoNets(w', [a], [b, c])
  {
    FoldedIntoSecond(w, w', [a], [b], c, e, now);
    assert [b] + [c] == [b, c];
  }

  lemma SightThirdWithSecond(run: seq<Event>, time: int, a: Record, b: Record, c: Record, three: Reads, pad: real)
    requires Outbid(a, b, c, pad) && time < three.now
    requires ValidRun(EMPTY, run) && TwoNets(Exec(EMPTY, run), [a], [b])
    requires Exec(EMPTY, run).st.source == SourceWith(SourceWith(map[], a), b)
    requires Settled(Exec(EMPTY, run).st, {Sig(a)} + {Sig(b)}, time)
    requires Lists(three.srcOrder, {KeyFor(a), KeyFor(b), KeyFor(c)}) && Lists(three.netOrder, Ids(2))
    ensures var s3 := SourceWith(SourceWith(SourceWith(map[], a), b), c);
            var more := run + [ChangeSource(s3)] + [RunBuild(three.netOrder, three.srcOrder, pad, three.now)];
            ValidRun(EMPTY, more) && TwoNets(Exec(EMPTY, more), [a], [b, c])
  {
    var w, s3 := Exec(EMPTY, run), SourceWith(SourceWith(SourceWith(map[], a), b), c);
    ThirdSigIsNew(a, b, c);
    ListsSame(three.srcOrder, {KeyFor(a), KeyFor(b), KeyFor(c)}, s3.Keys);
    OutbidRoutes(w, a, b, c, three.netOrder, pad);
    AppendSight(EMPTY, run, {Sig(a)} + {Sig(b)}, time, c, three.netOrder, three.srcOrder, pad, three.now);
    var w' := Exec(EMPTY, run + [ChangeSource(s3)] + [RunBuild(three.netOrder, three.srcOrder, pad, three.now)]);
    ThirdJoinsSecond(w, w', a, b, c, EntryFor(LoadRows(w.st.nets, three.netOrder), c, pad), three.now);
  }

  /** It fails too while the first net still shows the FF_ID: the third report is folded into the net whose
      band it meets and whose sighting is later, in every read order. */
  lemma OutbidIdMoves(a: Record, b: Record, c: Record, one: Reads, two: Reads, three: Reads, pad: real)
    requires Outbid(a, b, c, pad) && ReadsOk(a, b, c, one, two, three)
    requires Lists(one.netOrder, Ids(0)) && Lists(two.netOrder, Ids(1)) && Lists(three.netOrder, Ids(2))
    ensures var run := RunOfThree(a, b, c, one, two, three, pad);
            ValidRun(EMPTY, run) && TwoNets(Exec(EMPTY, run), [a], [b, c])
  {
    SecondBuild(a, b, one, two, pad);
    SightThirdWithSecond(RunOfTwo(a, b, one, two, pad), two.now, a, b, c, three, pad);
  }

  /** A sighting at station RDFS1 with no bandwidth given. */
  function Seen(ffId: int, frequency: real, day: int): Record {
    Record(Some(ffId), Val(frequency), Null, Some("RDFS1"), Null, Null, Some(day), Some(day), Some(1), map[])
  }

  /** Sightings for which each happens. */
  lemma SharedIdExamples()
    ensures TakenOver(Seen(1, 100.0, 10), Seen(2, 100.0, 11), Seen(1, 200.0, 12), 0.0)
    ensures Outbid(Seen(1, 100.0, 10), Seen(2, 200.0, 20), Seen(1, 200.0, 21), 0.0)
  {
    assert RecordBand(Fold(Seen(1, 100.0, 10), Seen(2, 100.0, 11))) == Some(Band(100.0, 100.0));
  }

  /** A band met in one run is forgotten in the next: the third report meets the band of the first, shares
      its FF_ID and station, and still starts a net of its own. */
  lemma ForgottenBandExample()
    ensures var a := Seen(1, 100.0, 10).(bandwidth := Val(100.0));
            var b := Seen(2, 100.09, 11).(bandwidth := Val(100.0));
            var c := Seen(1, 99.96, 12);
            TakenOver(a, b, c, 0.0) && Meets(c, a, 0.0)
  {
    var a := Seen(1, 100.0, 10).(bandwidth := Val(100.0));
    var b := Seen(2, 100.09, 11).(bandwidth := Val(100.0));
    assert RecordBand(Fold(a, b)) == RecordBand(b) == Some(Band(100.04, 100.14));
  }

  /* ---------------------------------------------------------- twins kept apart */

  /** Reports `k` and `l` are twins.  Each meets the band of its own net only, which holds a later report
      with another FF_ID. */
  predicate Apart(a: Record, b: Record, k: Record, l: Record, pad: real) {
    && SharedBetween(k, a, l) && SharedBetween(l, b, k)
    && Meets(k, a, pad) && !Meets(k, b, pad) && !Meets(k, l, pad)
    && Meets(l, b, pad) && !Meets(l, a, pad) && !Meets(l, k, pad)
  }

  lemma OnlyMatch(rows: seq<Member>, r: Record, pad: real, i: nat)
    requires i < |rows| && Matches(rows[i], r, pad)
    requires forall j :: 0 <= j < |rows| && j != i ==> !Matches(rows[j], r, pad)
    ensures Route(rows, r, pad) == Some(i)
  {
    assert IsRoute(rows, r, pad, i);
    RouteIsUnique(rows, r, pad, i);
  }

  lemma ApartRoutes(rows: seq<Member>, i: nat, j: nat, a: Record, b: Record, k: Record, l: Record, pad: real)
    requires |rows| == 2 && i < 2 && j < 2 && i != j && Apart(a, b, k, l, pad)
    requires rows[i].rec == a && rows[j].rec == b && rows[i].band.None? && rows[j].band.None?
    ensures EntryFor(rows, k, pad).netId == rows[i].netId
    ensures EntryFor(StepRows(rows, k, pad), l, pad).netId == rows[j].netId
  {
    OnlyMatch(rows, k, pad, i);
    var rows' := StepRows(rows, k, pad);
    assert rows' == rows[i := Absorb(rows[i], k)];
    OnlyMatch(rows', l, pad, j);
  }

  /** The tables of `w` with two more source rows. */
  function WithTwo(s: State, k: Record, l: Record): State
    requires Dated(k) && Dated(l)
  {
    s.(source := SourceWith(SourceWith(s.source, k), l))
  }

  lemma TwoUnseen(s: State, sigs: set<Signature>, time: int, k: Record, l: Record)
    requires Settled(s, sigs, time) && Dated(k) && Dated(l) && Sig(k) !in sigs && Sig(l) !in sigs
    ensures SourceOk(WithTwo(s, k, l).source) && UnseenKeys(WithTwo(s, k, l)) == {KeyFor(k), KeyFor(l)}
  {
    var s' := WithTwo(s, k, l);
    forall x
      ensures x in UnseenKeys(s') <==> x == KeyFor(k) || x == KeyFor(l)
    {
      if x in s.source && x != KeyFor(k) && x != KeyFor(l) {
        assert x !in UnseenKeys(s);
      }
    }
  }

  lemma PairOf<T>(s: seq<T>, x: T, y: T)
    requires |s| == 2 && s[0] != s[1] && forall z :: z in s ==> z == x || z == y
    ensures s == [x, y] || s == [y, x]
  {
    assert s[0] in s && s[1] in s;
  }

  lemma TwoUnknown(s: State, k: Record, l: Record, order: seq<ReportKey>)
    requires SourceOk(s.source) && Dated(k) && Dated(l) && KeyFor(k) != KeyFor(l)
    requires KeyFor(k) in s.source && KeyFor(l) in s.source && s.source[KeyFor(k)] == k && s.source[KeyFor(l)] == l
    requires UnseenKeys(s) == {KeyFor(k), KeyFor(l)} && Lists(order, s.source.Keys)
    ensures var unknown := Unknown(Reports(s.source, order), HistorySigs(s.history));
            unknown == [k, l] || unknown == [l, k]
  {
    var reports, known := Reports(s.source, order), HistorySigs(s.history);
    var unknown := Unknown(reports, known);
    UnknownCount(s, order);
    assert Sig(unknown[0]) != Sig(unknown[1]);
    forall r | r in unknown
      ensures r == k || r == l
    {
      var x := UnknownIsUnseen(s, order, r);
    }
    PairOf(unknown, k, l);
  }

  lemma ApartEntries(rows: seq<Member>, a: Record, b: Record, k: Record, l: Record, pad: real)
    requires |rows| == 2 && Apart(a, b, k, l, pad) && rows[0].netId != rows[1].netId
    requires rows[0].band.None? && rows[1].band.None?
    requires (rows[0].rec == a && rows[1].rec == b) || (rows[0].rec == b && rows[1].rec == a)
    ensures EntryFor(rows, k, pad).netId != EntryFor(StepRows(rows, k, pad), l, pad).netId
  {
    if rows[0].rec == a && rows[1].rec == b {
      ApartRoutes(rows, 0, 1, a, b, k, l, pad);
    } else {
      ApartRoutes(rows, 1, 0, a, b, k, l, pad);
    }
  }

  lemma TwoSlots(e: Entry, f: Entry)
    requires e.netId != f.netId
    ensures NoSharedSlot([e, f])
  {
  }

  lemma ApartLogged(rows: seq<Member>, a: Record, b: Record, k: Record, l: Record, pad: real)
    requires |rows| == 2 && Apart(a, b, k, l, pad) && rows[0].netId != rows[1].netId
    requires rows[0].band.None? && rows[1].band.None?
    requires (rows[0].rec == a && rows[1].rec == b) || (rows[0].rec == b && rows[1].rec == a)
    ensures NoSharedSlot(RunPass(Start(rows, {}), [k, l], false, pad).log)
  {
    TwoLogged(Start(rows, {}), k, l, pad);
    ApartEntries(rows, a, b, k, l, pad);
    TwoSlots(EntryFor(rows, k, pad), EntryFor(StepRows(rows, k, pad), l, pad));
  }

  lemma ApartFlips(a: Record, b: Record, k: Record, l: Record, pad: real)
    requires Apart(a, b, k, l, pad)
    ensures Apart(b, a, l, k, pad)
  {
  }

  lemma TwoNetRows(w: World, a: Record, b: Record, netOrder: seq<int>)
    requires TwoNets(w, [a], [b]) && Lists(netOrder, w.st.nets.Keys)
    ensures var rows := LoadRows(w.st.nets, netOrder);
            && |rows| == 2 && rows[0].netId != rows[1].netId && rows[0].band.None? && rows[1].band.None?
            && ((rows[0].rec == a && rows[1].rec == b) || (rows[0].rec == b && rows[1].rec == a))
  {
    ListsSame(netOrder, w.st.nets.Keys, Ids(2));
    ListingSize(netOrder, Ids(2));
    assert netOrder[0] in netOrder && netOrder[1] in netOrder && netOrder[0] != netOrder[1];
  }

  /** Twins need not break the promise when nets already stored keep them apart: here it holds in every
      read order although two unprocessed rows have one FF_ID at one station. */
  lemma ApartTwinsSettle(w: World, sigs: set<Signature>, time: int, a: Record, b: Record, k: Record, l: Record,
                         netOrder: seq<int>, pad: real, now: int)
    requires TwoNets(w, [a], [b]) && Settled(w.st, sigs, time) && time < now && Lists(netOrder, w.st.nets.Keys)
    requires Apart(a, b, k, l, pad) && Sig(k) !in sigs && Sig(l) !in sigs
    ensures Twins(WithTwo(w.st, k, l), KeyFor(k), KeyFor(l))
    ensures SettlesInAnyOrder(WithTwo(w.st, k, l), netOrder, pad, now)
  {
    var s := WithTwo(w.st, k, l);
    TwoUnseen(w.st, sigs, time, k, l);
    assert KeyFor(k) in UnseenKeys(s) && KeyFor(l) in UnseenKeys(s);
    forall o | Lists(o, s.source.Keys)
      ensures UnseenKeys(Build(s, netOrder, o, pad, now)) == {}
    {
      ApartOrderSettles(w, s, a, b, k, l, netOrder, o, pad, now);
    }
  }

  lemma ApartOrderSettles(w: World, s: State, a: Record, b: Record, k: Record, l: Record, netOrder: seq<int>,
                          o: seq<ReportKey>, pad: real, now: int)
    requires TwoNets(w, [a], [b]) && s.nets == w.st.nets && FreshTime(s.history, now)
    requires ReadOrders(s, netOrder, o) && SourceOk(s.source) && Apart(a, b, k, l, pad)
    requires KeyFor(k) in s.source && KeyFor(l) in s.source && s.source[KeyFor(k)] == k && s.source[KeyFor(l)] == l
    requires UnseenKeys(s) == {KeyFor(k), KeyFor(l)}
    ensures UnseenKeys(Build(s, netOrder, o, pad, now)) == {}
  {
    TwoUnknown(s, k, l, o);
    PassLogsUnknown(s, netOrder, o, pad);
    TwoNetRows(w, a, b, netOrder);
    ApartFlips(a, b, k, l, pad);
    ApartLogged(LoadRows(s.nets, netOrder), a, b, k, l, pad);
    ApartLogged(LoadRows(s.nets, netOrder), b, a, l, k, pad);
    RerunSkipsAllIff(s, netOrder, o, pad, now);
  }

  lemma SeenApart()
    ensures Apart(Seen(5, 100.0, 50), Seen(6, 200.0, 51), Seen(1, 100.0, 10), Seen(1, 200.0, 11), 0.0)
    ensures !Meets(Seen(6, 200.0, 51), Seen(5, 100.0, 50), 0.0)
  {
  }

  /** Such tables and twins: one run builds the two nets, in any read order. */
  lemma ApartExample(one: Reads, two: Reads, netOrder: seq<int>, now: int)
    requires Lists(one.srcOrder, {ReportKey(5, 50)}) && Lists(one.netOrder, Ids(0)) && one.now < two.now < now
    requires Lists(two.srcOrder, {ReportKey(5, 50), ReportKey(6, 51)}) && Lists(two.netOrder, Ids(1))
             && Lists(netOrder, Ids(2))
    ensures var a, b, k, l := Seen(5, 100.0, 50), Seen(6, 200.0, 51), Seen(1, 100.0, 10), Seen(1, 200.0, 11);
            var run := RunOfTwo(a, b, one, two, 0.0);
            ValidRun(EMPTY, run) &&
            var s := WithTwo(Exec(EMPTY, run).st, k, l);
            && Lists(netOrder, s.nets.Keys) && Twins(s, KeyFor(k), KeyFor(l))
            && SettlesInAnyOrder(s, netOrder, 0.0, now)
  {
    var a, b, k, l := Seen(5, 100.0, 50), Seen(6, 200.0, 51), Seen(1, 100.0, 10), Seen(1, 200.0, 11);
    SeenApart();
    SecondBuild(a, b, one, two, 0.0);
    var w := Exec(EMPTY, RunOfTwo(a, b, one, two, 0.0));
    ListsSame(netOrder, Ids(2), w.st.nets.Keys);
    ApartTwinsSettle(w, {Sig(a)} + {Sig(b)}, two.now, a, b, k, l, netOrder, 0.0, now);
  }
}
