/** What one build pass keeps: where every report went, and what every net then holds. */
module Passes {
  import opened Records
  import opened Folding
  import opened NetBuilding

  /** The reports that the log says went to net `id`, in order. */
  function Folded(log: seq<Entry>, id: int): seq<Record> {
    if |log| == 0 then []
    else
      var last := log[|log| - 1];
      Folded(log[..|log| - 1], id) + (if last.netId == id then [last.report] else [])
  }

  lemma FoldedStep(log: seq<Entry>, e: Entry, id: int)
    ensures Folded(log + [e], id) == if e.netId == id then Folded(log, id) + [e.report] else Folded(log, id)
  {
    assert (log + [e])[..|log|] == log;
  }

  lemma {:induction false} FoldedAbsent(log: seq<Entry>, id: int)
    requires forall k :: 0 <= k < |log| ==> log[k].netId != id
    ensures Folded(log, id) == []
  {
    if |log| > 0 {
      FoldedAbsent(log[..|log| - 1], id);
    }
  }

  lemma {:induction false} FoldedHas(log: seq<Entry>, k: nat) returns (i: nat)
    requires k < |log|
    ensures i < |Folded(log, log[k].netId)| && Folded(log, log[k].netId)[i] == log[k].report
  {
    var last := |log| - 1;
    if k == last {
      i := |Folded(log[..last], log[k].netId)|;
    } else {
      i := FoldedHas(log[..last], k);
    }
  }

  /* ------------------------------------------------------------------ ids */

  ghost predicate DistinctIds(rows: seq<Member>) {
    forall i, j :: 0 <= i < j < |rows| ==> rows[i].netId != rows[j].netId
  }

  /** Rows keep their ids, and each later row has ids above those of every row before it. */
  ghost predicate Extends(before: seq<Member>, rows: seq<Member>) {
    && |before| <= |rows|
    && (forall i :: 0 <= i < |before| ==> rows[i].netId == before[i].netId && rows[i].myNet == before[i].myNet)
    && (forall i, j :: |before| <= i < |rows| && 0 <= j < i ==>
         rows[j].netId < rows[i].netId && rows[j].myNet < rows[i].myNet)
  }

  lemma ExtendsKeepsDistinct(before: seq<Member>, rows: seq<Member>)
    requires Extends(before, rows) && DistinctIds(before)
    ensures DistinctIds(rows)
  {
    forall i, j | 0 <= i < j < |rows|
      ensures rows[i].netId != rows[j].netId
    {
      if j < |before| {
        assert before[i].netId != before[j].netId;
      }
    }
  }

  lemma StepExtends(before: seq<Member>, rows: seq<Member>, report: Record, pad: real)
    requires Extends(before, rows)
    ensures Extends(before, StepRows(rows, report, pad))
    ensures |StepRows(rows, report, pad)| == |rows| + (if Route(rows, report, pad).None? then 1 else 0)
  {
  }

  /* ------------------------------------------------------------ row contents */

  /** Row `m` is the fold of `base` then `got`; its tracked band is exactly the span of `got`; it and
      everything folded into it come from one station; and without a station it takes no second report. */
  ghost predicate Traced(m: Member, base: seq<Record>, got: seq<Record>) {
    && |base + got| > 0 && m.rec == FoldAll(base + got)
    && m.band == Hull(got)
    && (forall k :: 0 <= k < |base + got| ==> (base + got)[k].rdfs == m.rec.rdfs)
    && (m.rec.rdfs.None? ==> |base + got| == 1)
  }

  lemma TracedLoaded(m: Member)
    requires m.band.None?
    ensures Traced(m, [m.rec], [])
  {
    assert [m.rec] + [] == [m.rec];
  }

  lemma TracedNew(rows: seq<Member>, report: Record)
    ensures Traced(NewMember(rows, report), [], [report])
  {
    assert [] + [report] == [report];
    assert [report][..0] == [];
  }

  lemma TracedAbsorb(m: Member, base: seq<Record>, got: seq<Record>, report: Record)
    requires Traced(m, base, got)
    requires report.rdfs.Some? && m.rec.rdfs == report.rdfs
    ensures Traced(Absorb(m, report), base, got + [report])
  {
    var all := base + (got + [report]);
    assert all[..|all| - 1] == base + got;
    assert (got + [report])[..|got|] == got;
    assert forall k :: 0 <= k < |all| - 1 ==> all[k] == (base + got)[k];
  }

  /** The record a row held when the pass began, if it was there. */
  function Base(before: seq<Member>, i: nat): seq<Record> {
    if i < |before| then [before[i].rec] else []
  }

  ghost predicate RowsTraced(before: seq<Member>, rows: seq<Member>, log: seq<Entry>) {
    forall i :: 0 <= i < |rows| ==> Traced(rows[i], Base(before, i), Folded(log, rows[i].netId))
  }

  ghost predicate EntryKnown(e: Entry, rows: seq<Member>) {
    exists i :: 0 <= i < |rows| && rows[i].netId == e.netId && rows[i].myNet == e.myNet
  }

  ghost predicate LogKnown(rows: seq<Member>, log: seq<Entry>) {
    forall k :: 0 <= k < |log| ==> EntryKnown(log[k], rows)
  }

  lemma StepLogKnown(rows: seq<Member>, log: seq<Entry>, report: Record, pad: real)
    requires LogKnown(rows, log)
    ensures LogKnown(StepRows(rows, report, pad), log + [EntryFor(rows, report, pad)])
  {
    var rows', e := StepRows(rows, report, pad), EntryFor(rows, report, pad);
    assert forall i :: 0 <= i < |rows| ==> rows'[i].netId == rows[i].netId && rows'[i].myNet == rows[i].myNet;
    forall k | 0 <= k < |log + [e]|
      ensures EntryKnown((log + [e])[k], rows')
    {
      if k < |log| {
        assert EntryKnown(log[k], rows);
        var i :| 0 <= i < |rows| && rows[i].netId == log[k].netId && rows[i].myNet == log[k].myNet;
        assert rows'[i].netId == log[k].netId;
      } else if Route(rows, report, pad).Some? {
        assert rows'[Route(rows, report, pad).value].netId == e.netId;
      } else {
        assert rows'[|rows|].netId == e.netId;
      }
    }
  }

  lemma KeptRowTraced(before: seq<Member>, rows: seq<Member>, log: seq<Entry>, e: Entry, i: nat)
    requires i < |rows| && RowsTraced(before, rows, log) && e.netId != rows[i].netId
    ensures Traced(rows[i], Base(before, i), Folded(log + [e], rows[i].netId))
  {
    FoldedStep(log, e, rows[i].netId);
    assert Traced(rows[i], Base(before, i), Folded(log, rows[i].netId));
  }

  lemma FoldedRowTraced(before: seq<Member>, rows: seq<Member>, log: seq<Entry>, e: Entry, i: nat)
    requires i < |rows| && RowsTraced(before, rows, log) && e.netId == rows[i].netId
    requires e.report.rdfs.Some? && rows[i].rec.rdfs == e.report.rdfs
    ensures Traced(Absorb(rows[i], e.report), Base(before, i), Folded(log + [e], rows[i].netId))
  {
    FoldedStep(log, e, rows[i].netId);
    TracedAbsorb(rows[i], Base(before, i), Folded(log, rows[i].netId), e.report);
  }

  lemma NewRowTraced(rows: seq<Member>, log: seq<Entry>, e: Entry)
    requires LogKnown(rows, log) && e.netId == NextNetId(rows)
    ensures Traced(NewMember(rows, e.report), [], Folded(log + [e], e.netId))
  {
    FoldedStep(log, e, e.netId);
    forall k | 0 <= k < |log|
      ensures log[k].netId != e.netId
    {
      assert EntryKnown(log[k], rows);
    }
    FoldedAbsent(log, e.netId);
    TracedNew(rows, e.report);
    assert [] + [e.report] == [e.report];
  }

  lemma StepTraced(before: seq<Member>, rows: seq<Member>, log: seq<Entry>, report: Record, pad: real)
    requires |before| <= |rows| && DistinctIds(rows)
    requires RowsTraced(before, rows, log) && LogKnown(rows, log)
    ensures RowsTraced(before, StepRows(rows, report, pad), log + [EntryFor(rows, report, pad)])
  {
    var e, route := EntryFor(rows, report, pad), Route(rows, report, pad);
    var rows' := StepRows(rows, report, pad);
    forall i | 0 <= i < |rows'|
      ensures Traced(rows'[i], Base(before, i), Folded(log + [e], rows'[i].netId))
    {
      if route == Some(i) {
        FoldedRowTraced(before, rows, log, e, i);
      } else if i < |rows| {
        KeptRowTraced(before, rows, log, e, i);
      } else {
        NewRowTraced(rows, log, e);
      }
    }
  }

  /* ------------------------------------------------------------------ the pass */

  /** The part of a pass that its log describes. */
  ghost predicate PassOk(before: seq<Member>, p: Pass) {
    && Extends(before, p.rows)
    && DistinctIds(p.rows)
    && RowsTraced(before, p.rows, p.log)
    && LogKnown(p.rows, p.log)
  }

  function Start(before: seq<Member>, seen: set<Signature>): Pass {
    Pass(before, seen, [], 0)
  }

  ghost predicate Loaded(rows: seq<Member>) {
    DistinctIds(rows) && forall i :: 0 <= i < |rows| ==> rows[i].band.None?
  }

  lemma StartOk(before: seq<Member>, seen: set<Signature>)
    requires Loaded(before)
    ensures PassOk(before, Start(before, seen))
  {
    forall i | 0 <= i < |before|
      ensures Traced(before[i], Base(before, i), [])
    {
      TracedLoaded(before[i]);
    }
  }

  lemma StepOk(before: seq<Member>, p: Pass, report: Record, guarded: bool, pad: real)
    requires DistinctIds(before) && PassOk(before, p)
    ensures PassOk(before, StepPass(p, report, guarded, pad))
  {
    if !(guarded && Sig(report) in p.seen) {
      var rows' := StepRows(p.rows, report, pad);
      StepExtends(before, p.rows, report, pad);
      ExtendsKeepsDistinct(before, rows');
      StepLogKnown(p.rows, p.log, report, pad);
      StepTraced(before, p.rows, p.log, report, pad);
    }
  }

  /** Every net's record, tracked band and station after any batch, from the reports routed to it. */
  lemma {:induction false} PassKeepsTrace(before: seq<Member>, seen: set<Signature>, reports: seq<Record>,
                                          guarded: bool, pad: real)
    requires Loaded(before)
    ensures PassOk(before, RunPass(Start(before, seen), reports, guarded, pad))
  {
    if |reports| == 0 {
      StartOk(before, seen);
    } else {
      var front := reports[..|reports| - 1];
      PassKeepsTrace(before, seen, front, guarded, pad);
      StepOk(before, RunPass(Start(before, seen), front, guarded, pad), reports[|reports| - 1], guarded, pad);
    }
  }

  /** The net that row `i` tracks matches on exactly the span of the reports folded into it in this
      run, or on its stored record's own band when none was. */
  lemma MatchingBand(before: seq<Member>, p: Pass, i: nat)
    requires PassOk(before, p) && i < |p.rows|
    ensures var got := Folded(p.log, p.rows[i].netId);
            MemberBand(p.rows[i]) ==
              if Hull(got).Some? then Hull(got)
              else if |got| == 0 && i < |before| then RecordBand(before[i].rec)
              else RecordBand(p.rows[i].rec)
  {
    var got := Folded(p.log, p.rows[i].netId);
    assert Traced(p.rows[i], Base(before, i), got);
    if |got| == 0 && i < |before| {
      assert [before[i].rec] + got == [before[i].rec];
    }
  }

  /** The report is not above `other` by more than the two half bandwidths and the slack. */
  predicate NotAbove(report: Record, other: Record, pad: real) {
    && other.frequency.Val? && !other.bandwidth.NaN? && report.frequency.Val? && !report.bandwidth.NaN?
    && 2000.0 * (report.frequency.v - other.frequency.v) <= WidthCell(report) + WidthCell(other) + 2000.0 * pad
  }

  predicate NotBelow(report: Record, other: Record, pad: real) {
    && other.frequency.Val? && !other.bandwidth.NaN? && report.frequency.Val? && !report.bandwidth.NaN?
    && 2000.0 * (other.frequency.v - report.frequency.v) <= WidthCell(report) + WidthCell(other) + 2000.0 * pad
  }

  /** A net that took reports with bands in this run is met, as the cells say, exactly when the report is not
      above all of them and not below all of them: between two of them it is met although it meets neither. */
  lemma TrackedBandIff(before: seq<Member>, p: Pass, i: nat, report: Record, pad: real)
    requires PassOk(before, p) && i < |p.rows|
    requires var got := Folded(p.log, p.rows[i].netId); exists k :: 0 <= k < |got| && RecordBand(got[k]).Some?
    ensures var got := Folded(p.log, p.rows[i].netId);
            SameBand(p.rows[i], report, pad) <==>
            && (exists k :: 0 <= k < |got| && NotAbove(report, got[k], pad))
            && (exists k :: 0 <= k < |got| && NotBelow(report, got[k], pad))
  {
    var got := Folded(p.log, p.rows[i].netId);
    HullIsExact(got);
    MatchingBand(before, p, i);
    SpanMetIff(got, report, pad);
  }

  lemma SpanMetIff(got: seq<Record>, report: Record, pad: real)
    requires exists k :: 0 <= k < |got| && RecordBand(got[k]).Some?
    ensures Hull(got).Some?
    ensures RecordBand(report).Some? && Overlaps(RecordBand(report).value, Hull(got).value, pad) <==>
            && (exists k :: 0 <= k < |got| && NotAbove(report, got[k], pad))
            && (exists k :: 0 <= k < |got| && NotBelow(report, got[k], pad))
  {
    HullIsExact(got);
    var span := Hull(got).value;
    var top :| 0 <= top < |got| && RecordBand(got[top]).Some? && RecordBand(got[top]).value.hi == span.hi;
    var low :| 0 <= low < |got| && RecordBand(got[low]).Some? && RecordBand(got[low]).value.lo == span.lo;
    if RecordBand(report).Some? && Overlaps(RecordBand(report).value, span, pad) {
      assert NotAbove(report, got[top], pad) && NotBelow(report, got[low], pad);
    } else if RecordBand(report).Some? {
      if k :| 0 <= k < |got| && NotAbove(report, got[k], pad) {
        assert RecordBand(got[k]).value.hi <= span.hi;
      }
      if k :| 0 <= k < |got| && NotBelow(report, got[k], pad) {
        assert span.lo <= RecordBand(got[k]).value.lo;
      }
    }
  }

  lemma CoveredBandMatches(m: Member, base: seq<Record>, got: seq<Record>, j: nat, report: Record, pad: real)
    requires Traced(m, base, got) && j < |got|
    requires report.rdfs.Some? && got[j].rdfs == report.rdfs
    requires RecordBand(report).Some? && RecordBand(got[j]).Some?
    requires Overlaps(RecordBand(report).value, RecordBand(got[j]).value, pad)
    ensures Matches(m, report, pad)
  {
    assert (base + got)[|base| + j] == got[j];
    HullIsExact(got);
  }

  lemma RowOfEntry(rows: seq<Member>, e: Entry) returns (i: nat)
    requires EntryKnown(e, rows)
    ensures i < |rows| && rows[i].netId == e.netId
  {
    i :| 0 <= i < |rows| && rows[i].netId == e.netId && rows[i].myNet == e.myNet;
  }

  lemma MatchCollapses(rows: seq<Member>, i: nat, report: Record, pad: real)
    requires i < |rows| && Matches(rows[i], report, pad)
    ensures EntryFor(rows, report, pad).collapsed
  {
  }

  /** Once a report with a station and a band has been routed, a later report of that station whose
      band meets it always collapses. */
  lemma OverlapNeverSplits(before: seq<Member>, p: Pass, k: nat, report: Record, pad: real)
    requires PassOk(before, p) && k < |p.log|
    requires report.rdfs.Some? && p.log[k].report.rdfs == report.rdfs
    requires RecordBand(report).Some? && RecordBand(p.log[k].report).Some?
    requires Overlaps(RecordBand(report).value, RecordBand(p.log[k].report).value, pad)
    ensures EntryFor(p.rows, report, pad).collapsed
  {
    var i := RowOfEntry(p.rows, p.log[k]);
    var j := FoldedHas(p.log, k);
    CoveredBandMatches(p.rows[i], Base(before, i), Folded(p.log, p.log[k].netId), j, report, pad);
    MatchCollapses(p.rows, i, report, pad);
  }

  /** The same over a whole batch: of two entries that agree in station and meet in band, the later
      one is a collapse. */
  lemma {:induction false} LaterOverlapCollapses(before: seq<Member>, seen: set<Signature>, reports: seq<Record>,
                                                 guarded: bool, pad: real, k: nat, m: nat)
    requires Loaded(before)
    requires var log := RunPass(Start(before, seen), reports, guarded, pad).log;
             && k < m < |log|
             && log[m].report.rdfs.Some? && log[k].report.rdfs == log[m].report.rdfs
             && RecordBand(log[m].report).Some? && RecordBand(log[k].report).Some?
             && Overlaps(RecordBand(log[m].report).value, RecordBand(log[k].report).value, pad)
    ensures RunPass(Start(before, seen), reports, guarded, pad).log[m].collapsed
  {
    var front, last := reports[..|reports| - 1], reports[|reports| - 1];
    var p := RunPass(Start(before, seen), front, guarded, pad);
    if m < |p.log| {
      LaterOverlapCollapses(before, seen, front, guarded, pad, k, m);
    } else {
      PassKeepsTrace(before, seen, front, guarded, pad);
      OverlapNeverSplits(before, p, k, last, pad);
    }
  }

  /* ------------------------------------------------------------------- FF_ID */

  /** Everything row `i` is the fold of. */
  function History(before: seq<Member>, p: Pass, i: nat): seq<Record>
    requires i < |p.rows|
  {
    Base(before, i) + Folded(p.log, p.rows[i].netId)
  }

  /** The last leading fold with an FF_ID had the FF_ID of the report. */
  ghost predicate ShowsId(before: seq<Member>, p: Pass, i: nat, report: Record)
    requires i < |p.rows|
  {
    report.ffId.Some? &&
    exists k :: Shows(History(before, p, i), FfId, k) && History(before, p, i)[k].ffId == report.ffId
  }

  /** Row `i` can take the report: same named station, and its band is met or it shows the FF_ID. */
  ghost predicate Takes(before: seq<Member>, p: Pass, i: nat, report: Record, pad: real)
    requires i < |p.rows|
  {
    report.rdfs.Some? && p.rows[i].rec.rdfs == report.rdfs
        && (SameBand(p.rows[i], report, pad) || ShowsId(before, p, i, report))
  }

  lemma ShowsIdIff(before: seq<Member>, p: Pass, i: nat, report: Record)
    requires PassOk(before, p) && i < |p.rows|
    ensures ShowsId(before, p, i, report) <==> SameEmitterId(p.rows[i], report)
  {
    var all := History(before, p, i);
    assert Traced(p.rows[i], Base(before, i), Folded(p.log, p.rows[i].netId));
    FoldAllCell(all, FfId);
    if SameEmitterId(p.rows[i], report) {
      assert Cell(FoldAll(all), FfId).Some?;
      var k :| Shows(all, FfId, k);
      assert all[k].ffId == report.ffId;
    }
  }

  lemma TakesIffMatches(before: seq<Member>, p: Pass, report: Record, pad: real)
    requires PassOk(before, p)
    ensures forall i :: 0 <= i < |p.rows| ==> (Takes(before, p, i, report, pad) <==> Matches(p.rows[i], report, pad))
  {
    forall i | 0 <= i < |p.rows|
      ensures Takes(before, p, i, report, pad) <==> Matches(p.rows[i], report, pad)
    {
      ShowsIdIff(before, p, i, report);
    }
  }

  /** A report collapses exactly when some net of its station is met by its band or shows its FF_ID. */
  lemma CollapsesIff(before: seq<Member>, p: Pass, report: Record, pad: real)
    requires PassOk(before, p)
    ensures EntryFor(p.rows, report, pad).collapsed <==>
            exists i :: 0 <= i < |p.rows| && Takes(before, p, i, report, pad)
  {
    TakesIffMatches(before, p, report, pad);
    var route := Route(p.rows, report, pad);
    if route.Some? {
      assert Takes(before, p, route.value, report, pad);
    }
  }

  /** Row `i` comes before row `j` in the choice: a later LTI, or the same one earlier in the table. */
  predicate ChosenOver(rows: seq<Member>, i: nat, j: nat)
    requires i < |rows| && j < |rows|
  {
    !Precedes(rows[i].rec.lti, rows[j].rec.lti) && (j < i ==> Precedes(rows[j].rec.lti, rows[i].rec.lti))
  }

  /** A report goes to the net of row `i` exactly when that net can take it and is chosen over every other
      net that can.  A shared FF_ID and station therefore leads back to the net of an earlier report
      exactly when that net still shows the FF_ID, or is met by the band, and no net that can take the
      report has seen a later sighting. */
  lemma GoesToNetIff(before: seq<Member>, p: Pass, i: nat, report: Record, pad: real)
    requires PassOk(before, p) && i < |p.rows|
    ensures EntryFor(p.rows, report, pad).netId == p.rows[i].netId <==>
            && Takes(before, p, i, report, pad)
            && forall j :: 0 <= j < |p.rows| && j != i && Takes(before, p, j, report, pad) ==> ChosenOver(p.rows, i, j)
  {
    TakesIffMatches(before, p, report, pad);
    RoutedRow(p.rows, report, pad, i);
    if Takes(before, p, i, report, pad)
       && forall j :: 0 <= j < |p.rows| && j != i && Takes(before, p, j, report, pad) ==> ChosenOver(p.rows, i, j) {
      assert IsRoute(p.rows, report, pad, i);
    }
  }

  lemma RoutedRow(rows: seq<Member>, report: Record, pad: real, i: nat)
    requires DistinctIds(rows) && i < |rows|
    ensures EntryFor(rows, report, pad).netId == rows[i].netId <==> IsRoute(rows, report, pad, i)
  {
    var route := Route(rows, report, pad);
    if IsRoute(rows, report, pad, i) {
      RouteIsUnique(rows, report, pad, i);
    } else if route.Some? {
      assert rows[route.value].netId != rows[i].netId;
    } else {
      assert rows[i].netId < NextNetId(rows);
    }
  }

  /* -------------------------------------------------------------- conservation */

  function RowsTotal(rows: seq<Member>): int {
    if |rows| == 0 then 0 else RowsTotal(rows[..|rows| - 1]) + Count(rows[|rows| - 1].rec.nti)
  }

  lemma {:induction false} RowsTotalUpdate(rows: seq<Member>, i: nat, m: Member)
    requires i < |rows|
    ensures RowsTotal(rows[i := m]) == RowsTotal(rows) - Count(rows[i].rec.nti) + Count(m.rec.nti)
  {
    var last := |rows| - 1;
    if i == last {
      assert rows[i := m][..last] == rows[..last];
    } else {
      RowsTotalUpdate(rows[..last], i, m);
      assert rows[i := m][..last] == rows[..last][i := m];
    }
  }

  lemma StepTotal(rows: seq<Member>, report: Record, pad: real)
    ensures RowsTotal(StepRows(rows, report, pad)) == RowsTotal(rows) + Count(report.nti)
  {
    var route := Route(rows, report, pad);
    if route.Some? {
      RowsTotalUpdate(rows, route.value, Absorb(rows[route.value], report));
    } else {
      assert StepRows(rows, report, pad)[..|rows|] == rows;
    }
  }

  function LogTotal(log: seq<Entry>): int {
    if |log| == 0 then 0 else LogTotal(log[..|log| - 1]) + Count(log[|log| - 1].report.nti)
  }

  function Created(log: seq<Entry>): (created: nat)
    ensures created <= |log|
  {
    if |log| == 0 then 0 else Created(log[..|log| - 1]) + (if log[|log| - 1].collapsed then 0 else 1)
  }

  /** Every report is new, collapsed or skipped; new ones add a row each; and the NTI of the processed
      ones, nothing else, is added to the rows. */
  lemma {:induction false} PassConserves(before: seq<Member>, seen: set<Signature>, reports: seq<Record>,
                                         guarded: bool, pad: real)
    ensures var p := RunPass(Start(before, seen), reports, guarded, pad);
            && |p.log| + p.skipped == |reports|
            && |p.rows| == |before| + Created(p.log)
            && RowsTotal(p.rows) == RowsTotal(before) + LogTotal(p.log)
  {
    if |reports| > 0 {
      var front, last := reports[..|reports| - 1], reports[|reports| - 1];
      PassConserves(before, seen, front, guarded, pad);
      var p := RunPass(Start(before, seen), front, guarded, pad);
      if !(guarded && Sig(last) in p.seen) {
        StepTotal(p.rows, last, pad);
        assert (p.log + [EntryFor(p.rows, last, pad)])[..|p.log|] == p.log;
      }
    }
  }
}
