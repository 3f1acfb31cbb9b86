/** Which reports the idempotency guard tells apart, in their cells, and what happens to a row that was revised. */
module Revisions {
  import opened Records
  import opened Pipeline
  import opened Builds
  import opened Convergence
  import opened Machine
  import opened Runs

  /** `n` is the frequency in millionths of a MHz. */
  predicate InMillionths(f: real, n: int) { IsNearest(f * 1000000.0, n) }

  /** Both null, or the same number of MHz to six decimals. */
  ghost predicate SameFrequency(f: Num, g: Num) {
    if f.Val? && g.Val? then exists n :: InMillionths(f.v, n) && InMillionths(g.v, n)
    else !f.Val? && !g.Val?
  }

  /** The guard takes the two for the same report. */
  ghost predicate SameReport(a: Record, b: Record) {
    && a.ffId == b.ffId && a.fti == b.fti && a.lti == b.lti && a.nti == b.nti
    && SameFrequency(a.frequency, b.frequency)
  }

  lemma SameFrequencyIff(f: real, g: real)
    ensures SameFrequency(Val(f), Val(g)) <==> RoundHalfEven(f * 1000000.0) == RoundHalfEven(g * 1000000.0)
  {
    var n := RoundHalfEven(f * 1000000.0);
    RoundsToNearest(f * 1000000.0, n);
    RoundsToNearest(g * 1000000.0, n);
    assert InMillionths(f, n);
    forall m
      ensures InMillionths(f, m) ==> m == n
    {
      RoundsToNearest(f * 1000000.0, m);
    }
  }

  lemma SameSigIff(a: Record, b: Record)
    ensures Sig(a) == Sig(b) <==> SameReport(a, b)
  {
    if a.frequency.Val? && b.frequency.Val? {
      SameFrequencyIff(a.frequency.v, b.frequency.v);
    }
  }

  /** The history holds the report. */
  ghost predicate InHistory(s: State, r: Record) {
    exists h :: h in s.history && SameReport(s.history[h].report, r)
  }

  lemma KnownIff(s: State, r: Record)
    ensures Sig(r) in HistorySigs(s.history) <==> InHistory(s, r)
  {
    if Sig(r) in HistorySigs(s.history) {
      var h :| h in s.history && Sig(s.history[h].report) == Sig(r);
      SameSigIff(s.history[h].report, r);
    }
    if InHistory(s, r) {
      var h :| h in s.history && SameReport(s.history[h].report, r);
      SameSigIff(s.history[h].report, r);
    }
  }

  /** The build processes source row `k`. */
  ghost predicate Processes(s: State, netOrder: seq<int>, srcOrder: seq<ReportKey>, pad: real, k: ReportKey)
    requires ReadOrders(s, netOrder, srcOrder) && k in s.source
  {
    s.source[k] in LogReports(BuildPass(s, netOrder, srcOrder, pad).log)
  }

  /** A build processes a source row exactly when no report in the history agrees with it in FF_ID, FTI, LTI,
      NTI and the frequency to six decimals; no other cell matters. */
  lemma ProcessesIff(s: State, netOrder: seq<int>, srcOrder: seq<ReportKey>, pad: real, k: ReportKey)
    requires ReadOrders(s, netOrder, srcOrder) && SourceOk(s.source) && k in s.source
    ensures Processes(s, netOrder, srcOrder, pad, k) <==> !InHistory(s, s.source[k])
  {
    BuildRunsUnseen(s, netOrder, srcOrder, pad);
    var reports, r := Reports(s.source, srcOrder), s.source[k];
    var j :| 0 <= j < |srcOrder| && srcOrder[j] == k;
    assert reports[j] == r;
    UnknownHas(reports, HistorySigs(s.history), r);
    KnownIff(s, r);
  }

  /** The tables after the source row of `r` was upserted. */
  function Revised(s: State, r: Record): State
    requires r.ffId.Some? && r.lti.Some?
  {
    s.(source := s.source[KeyFor(r) := r])
  }

  /** Every report in the history with the key of `r` is `held`, to the guard. */
  ghost predicate KnownOnlyAs(s: State, held: Record) {
    forall h :: h in s.history && s.history[h].report.ffId == held.ffId && s.history[h].report.lti == held.lti ==>
      SameReport(s.history[h].report, held)
  }

  lemma SameReportJoins(a: Record, b: Record, c: Record)
    requires SameReport(a, b) && SameReport(a, c)
    ensures SameReport(b, c)
  {
    SameSigIff(a, b);
    SameSigIff(a, c);
    SameSigIff(b, c);
  }

  /** On settled tables a revised row is processed exactly when the history holds no version like it.  When
      the history knows the row only as it was, that is exactly when its FTI, its NTI or its frequency to six
      decimals changed. */
  lemma RevisedRowProcessedIff(s: State, r: Record, netOrder: seq<int>, srcOrder: seq<ReportKey>, pad: real)
    requires SourceOk(s.source) && UnseenKeys(s) == {}
    requires r.ffId.Some? && r.lti.Some? && KeyFor(r) in s.source
    requires ReadOrders(Revised(s, r), netOrder, srcOrder)
    ensures var held := s.source[KeyFor(r)];
            var processed := Processes(Revised(s, r), netOrder, srcOrder, pad, KeyFor(r));
            var changed := r.fti != held.fti || r.nti != held.nti || !SameFrequency(r.frequency, held.frequency);
            && (processed <==> forall h :: h in s.history ==> !SameReport(s.history[h].report, r))
            && (processed ==> changed)
            && (KnownOnlyAs(s, held) ==> (processed <==> changed))
  {
    var held := s.source[KeyFor(r)];
    ProcessesIff(Revised(s, r), netOrder, srcOrder, pad, KeyFor(r));
    HeldIsKnown(s, KeyFor(r));
    var h :| h in s.history && SameReport(s.history[h].report, held);
    if SameReport(held, r) {
      KnownVersion(s, h, held, r);
    }
    if KnownOnlyAs(s, held) && InHistory(Revised(s, r), r) {
      var g :| g in s.history && SameReport(s.history[g].report, r);
      SameReportJoins(s.history[g].report, held, r);
    }
    SameFrequencyFlips(r.frequency, held.frequency);
  }

  lemma SameFrequencyFlips(f: Num, g: Num)
    ensures SameFrequency(f, g) <==> SameFrequency(g, f)
  {
    if f.Val? && g.Val? {
      SameFrequencyIff(f.v, g.v);
      SameFrequencyIff(g.v, f.v);
    }
  }

  lemma HeldIsKnown(s: State, k: ReportKey)
    requires UnseenKeys(s) == {} && k in s.source
    ensures InHistory(s, s.source[k])
  {
    assert k !in UnseenKeys(s);
    KnownIff(s, s.source[k]);
  }

  lemma KnownVersion(s: State, h: HistKey, held: Record, r: Record)
    requires h in s.history && SameReport(s.history[h].report, held) && SameReport(held, r)
    ensures SameReport(s.history[h].report, r)
  {
    SameSigIff(s.history[h].report, held);
    SameSigIff(held, r);
    SameSigIff(s.history[h].report, r);
  }

  lemma SightFirst(a: Record, pad: real) returns (run: seq<Event>)
    requires a.ffId.Some? && a.lti.Some?
    ensures ValidRun(EMPTY, run) && Settled(Exec(EMPTY, run).st, {Sig(a)}, 1)
    ensures Exec(EMPTY, run).st.source == map[KeyFor(a) := a]
  {
    assert UnseenKeys(EMPTY.st) == {};
    var srcOrder := ListingExists(EMPTY.st.source[KeyFor(a) := a].Keys);
    AppendSight(EMPTY, [], {}, 0, a, [], srcOrder, pad, 1);
    var (change, build) := Sight(EMPTY.st, a, [], srcOrder, pad, 1);
    run := [] + [change] + [build];
    assert {} + {Sig(a)} == {Sig(a)};
  }

  /** A row that is restored to an earlier version is skipped although it changed: the history holds both. */
  lemma RestoredRowSkipped(a: Record, b: Record, pad: real) returns (run: seq<Event>)
    requires a.ffId.Some? && a.lti.Some? && b.ffId == a.ffId && b.lti == a.lti && !SameReport(a, b)
    ensures ValidRun(EMPTY, run)
    ensures var s := Exec(EMPTY, run).st;
            && SourceOk(s.source) && UnseenKeys(s) == {} && s.source == map[KeyFor(a) := b]
            && forall netOrder, srcOrder :: ReadOrders(Revised(s, a), netOrder, srcOrder) ==>
                 !Processes(Revised(s, a), netOrder, srcOrder, pad, KeyFor(a))
  {
    var first := SightFirst(a, pad);
    var w := Exec(EMPTY, first);
    SameSigIff(a, b);
    var netOrder := ListingExists(w.st.nets.Keys);
    var srcOrder := ListingExists(w.st.source[KeyFor(b) := b].Keys);
    AppendSight(EMPTY, first, {Sig(a)}, 1, b, netOrder, srcOrder, pad, 2);
    var (change, build) := Sight(w.st, b, netOrder, srcOrder, pad, 2);
    run := first + [change] + [build];
    var s := Exec(EMPTY, run).st;
    assert s.source == map[KeyFor(a) := b];
    RestoredIsKnown(s, {Sig(a)} + {Sig(b)}, a);
    forall nets, rows | ReadOrders(Revised(s, a), nets, rows)
      ensures !Processes(Revised(s, a), nets, rows, pad, KeyFor(a))
    {
      ProcessesIff(Revised(s, a), nets, rows, pad, KeyFor(a));
    }
  }

  lemma RestoredIsKnown(s: State, sigs: set<Signature>, r: Record)
    requires HistorySigs(s.history) == sigs && Sig(r) in sigs && r.ffId.Some? && r.lti.Some?
    ensures InHistory(Revised(s, r), r)
  {
    KnownIff(Revised(s, r), r);
  }
}
