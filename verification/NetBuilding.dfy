/** Routing one report to a net, folding it in place, and the pass over a batch of reports. */
module NetBuilding {
  import opened Records

  const MY_NET_START := 1
  const SYSTEM_NET_START := 100001

  /** One row of the working table.  `band` is the span observed in this run (`_f_lo`, `_f_hi`),
      which is not stored: a row loaded from the table has none until a report is folded into it. */
  datatype Member = Member(netId: int, myNet: int, rec: Record, band: Option<Band>)

  /* ------------------------------------------------------------ id allocation */

  function MaxOf(s: seq<int>): (m: int)
    requires |s| > 0
    ensures exists i :: 0 <= i < |s| && s[i] == m
    ensures forall i :: 0 <= i < |s| ==> s[i] <= m
  {
    var last := |s| - 1;
    if last == 0 then s[0]
    else
      var rest := MaxOf(s[..last]);
      assert forall i :: 0 <= i < last ==> s[..last][i] == s[i];
      if s[last] > rest then s[last] else rest
  }

  function NetIds(rows: seq<Member>): (ids: seq<int>)
    ensures |ids| == |rows| && forall i :: 0 <= i < |rows| ==> ids[i] == rows[i].netId
  {
    seq(|rows|, i requires 0 <= i < |rows| => rows[i].netId)
  }

  function MyNets(rows: seq<Member>): (ids: seq<int>)
    ensures |ids| == |rows| && forall i :: 0 <= i < |rows| ==> ids[i] == rows[i].myNet
  {
    seq(|rows|, i requires 0 <= i < |rows| => rows[i].myNet)
  }

  /** One more than the highest id in use. */
  function NextNetId(rows: seq<Member>): (id: int)
    ensures forall i :: 0 <= i < |rows| ==> rows[i].netId < id
    ensures if |rows| == 0 then id == SYSTEM_NET_START
            else exists i :: 0 <= i < |rows| && rows[i].netId == id - 1
  {
    if |rows| == 0 then SYSTEM_NET_START else MaxOf(NetIds(rows)) + 1
  }

  function NextMyNet(rows: seq<Member>): (id: int)
    ensures forall i :: 0 <= i < |rows| ==> rows[i].myNet < id
    ensures if |rows| == 0 then id == MY_NET_START
            else exists i :: 0 <= i < |rows| && rows[i].myNet == id - 1
  {
    if |rows| == 0 then MY_NET_START else MaxOf(MyNets(rows)) + 1
  }

  /* ------------------------------------------------------------------ routing */

  function MemberBand(m: Member): Option<Band> {
    if m.band.Some? then m.band else RecordBand(m.rec)
  }

  predicate SameBand(m: Member, report: Record, pad: real) {
    RecordBand(report).Some? && MemberBand(m).Some? && Overlaps(RecordBand(report).value, MemberBand(m).value, pad)
  }

  predicate SameEmitterId(m: Member, report: Record) {
    report.ffId.Some? && m.rec.ffId == report.ffId
  }

  /** The report is a re-intercept of this net: same station, and same FF_ID or meeting bands. */
  predicate Matches(m: Member, report: Record, pad: real) {
    && report.rdfs.Some? && m.rec.rdfs == report.rdfs
    && (SameEmitterId(m, report) || SameBand(m, report, pad))
  }

  /** A bandwidth in kHz, where `None` counts as zero. */
  function WidthCell(r: Record): real {
    if r.bandwidth.Val? then r.bandwidth.v else 0.0
  }

  /** The band test in the cells of two records: in kHz, twice the distance of the frequencies is at most the
      sum of the bandwidths and twice the slack.  A null frequency or a NaN meets nothing. */
  predicate MeetsInCells(a: Record, b: Record, pad: real) {
    && a.frequency.Val? && b.frequency.Val? && !a.bandwidth.NaN? && !b.bandwidth.NaN?
    && 2000.0 * (a.frequency.v - b.frequency.v) <= WidthCell(a) + WidthCell(b) + 2000.0 * pad
    && 2000.0 * (b.frequency.v - a.frequency.v) <= WidthCell(a) + WidthCell(b) + 2000.0 * pad
  }

  /** A net that has no observed band in this run is met exactly when its record is, as the cells say. */
  lemma BandTestIff(m: Member, report: Record, pad: real)
    requires m.band.None?
    ensures SameBand(m, report, pad) <==> MeetsInCells(report, m.rec, pad)
  {
  }

  /** A missing date comes before every date. */
  predicate Precedes(a: Option<int>, b: Option<int>) {
    b.Some? && (a.None? || a.value < b.value)
  }

  /** Row `i` is the match with the latest LTI, the first such row on a tie. */
  ghost predicate IsRoute(rows: seq<Member>, report: Record, pad: real, i: int) {
    && 0 <= i < |rows| && Matches(rows[i], report, pad)
    && forall j :: 0 <= j < |rows| && Matches(rows[j], report, pad) ==>
         !Precedes(rows[i].rec.lti, rows[j].rec.lti) && (j < i ==> Precedes(rows[j].rec.lti, rows[i].rec.lti))
  }

  function Route(rows: seq<Member>, report: Record, pad: real): (r: Option<nat>)
    ensures r.Some? ==> IsRoute(rows, report, pad, r.value)
    ensures r.None? ==> forall i :: 0 <= i < |rows| ==> !Matches(rows[i], report, pad)
  {
    if |rows| == 0 then None
    else
      var last := |rows| - 1;
      var best := Route(rows[..last], report, pad);
      if !Matches(rows[last], report, pad) then best
      else if best.None? || Precedes(rows[best.value].rec.lti, rows[last].rec.lti) then Some(last)
      else best
  }

  lemma RouteIsUnique(rows: seq<Member>, report: Record, pad: real, i: int)
    requires IsRoute(rows, report, pad, i)
    ensures Route(rows, report, pad) == Some(i)
  {
    assert Route(rows, report, pad).Some?;
  }

  /** A net after one re-intercept. */
  function Absorb(m: Member, report: Record): Member {
    m.(rec := Fold(m.rec, report), band := Widen(m.band, RecordBand(report)))
  }

  function NewMember(rows: seq<Member>, report: Record): Member {
    Member(NextNetId(rows), NextMyNet(rows), report, RecordBand(report))
  }

  /* ----------------------------------------------------------------- the pass */

  /** What the audit trail says of one processed report. */
  datatype Entry = Entry(report: Record, netId: int, myNet: int, collapsed: bool, survivor: Option<int>)

  datatype Pass = Pass(rows: seq<Member>, seen: set<Signature>, log: seq<Entry>, skipped: nat)

  function StepRows(rows: seq<Member>, report: Record, pad: real): seq<Member> {
    match Route(rows, report, pad)
    case Some(i) => rows[i := Absorb(rows[i], report)]
    case None => rows + [NewMember(rows, report)]
  }

  function EntryFor(rows: seq<Member>, report: Record, pad: real): Entry {
    match Route(rows, report, pad)
    case Some(i) => Entry(report, rows[i].netId, rows[i].myNet, true, Fold(rows[i].rec, report).ffId)
    case None => Entry(report, NextNetId(rows), NextMyNet(rows), false, None)
  }

  function StepPass(p: Pass, report: Record, guarded: bool, pad: real): Pass {
    if guarded && Sig(report) in p.seen then p.(skipped := p.skipped + 1)
    else Pass(StepRows(p.rows, report, pad),
              if guarded then p.seen + {Sig(report)} else p.seen,
              p.log + [EntryFor(p.rows, report, pad)],
              p.skipped)
  }

  /** The loop over a batch; `guarded` is false when the history is empty, for then it has no columns. */
  function RunPass(p: Pass, reports: seq<Record>, guarded: bool, pad: real): Pass {
    if |reports| == 0 then p
    else StepPass(RunPass(p, reports[..|reports| - 1], guarded, pad), reports[|reports| - 1], guarded, pad)
  }

  /* ------------------------------------------------------- the working table */

  datatype Assignment = Assignment(myNet: int, netId: int, collapsed: bool, survivor: Option<int>)

  /** The table that a run routes into, changed in place. */
  class Members {
    var rows: seq<Member>

    constructor (rows: seq<Member>)
      ensures this.rows == rows
    {
      this.rows := rows;
    }

    method CollapseInto(i: nat, report: Record) returns (netId: int, survivor: Option<int>)
      requires i < |rows|
      modifies this
      ensures rows == old(rows)[i := Absorb(old(rows)[i], report)]
      ensures netId == old(rows)[i].netId && survivor == rows[i].rec.ffId
    {
      var held := rows[i].rec;
      var rec := held;
      if report.lti.Some? && (held.lti.None? || report.lti.value >= held.lti.value) {
        rec := Overlay(rec, report);
      }
      if held.fti.Some? || report.fti.Some? {
        rec := rec.(fti := Earlier(held.fti, report.fti));
      }
      if held.lti.Some? || report.lti.Some? {
        rec := rec.(lti := Later(held.lti, report.lti));
      }
      var o, n := Count(held.nti), Count(report.nti);
      if o != 0 || n != 0 {
        rec := rec.(nti := Some(o + n));
      }
      rows := rows[i := rows[i].(rec := rec, band := Widen(rows[i].band, RecordBand(report)))];
      netId, survivor := rows[i].netId, rec.ffId;
    }

    method AssignNet(report: Record, pad: real) returns (a: Assignment)
      modifies this
      ensures a.collapsed <==> exists i :: 0 <= i < |old(rows)| && Matches(old(rows)[i], report, pad)
      ensures rows == match Route(old(rows), report, pad)
                      case Some(i) => old(rows)[i := Absorb(old(rows)[i], report)]
                      case None => old(rows)
      ensures EntryFor(old(rows), report, pad) == Entry(report, a.netId, a.myNet, a.collapsed, a.survivor)
    {
      if report.rdfs.Some? {
        var newest: Option<nat> := None;
        for i := 0 to |rows|
          invariant rows == old(rows)
          invariant newest.Some? ==> newest.value < i && IsRoute(rows[..i], report, pad, newest.value)
          invariant newest.None? ==> forall j :: 0 <= j < i ==> !Matches(rows[j], report, pad)
        {
          if rows[i].rec.rdfs == report.rdfs && (SameEmitterId(rows[i], report) || SameBand(rows[i], report, pad)) {
            if newest.None? || Precedes(rows[newest.value].rec.lti, rows[i].rec.lti) {
              newest := Some(i);
            }
          }
        }
        if newest.Some? {
          assert rows[..|rows|] == rows;
          RouteIsUnique(rows, report, pad, newest.value);
          var netId, survivor := CollapseInto(newest.value, report);
          return Assignment(rows[newest.value].myNet, netId, true, survivor);
        }
      }
      assert Route(rows, report, pad).None?;
      a := Assignment(NextMyNet(rows), NextNetId(rows), false, None);
    }

    method Append(m: Member)
      modifies this
      ensures rows == old(rows) + [m]
    {
      rows := rows + [m];
    }
  }
}
