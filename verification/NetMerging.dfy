/** Which pairs of already-built nets look like one tactical net. */
module NetMerging {
  import opened Records

  const SECONDS_PER_DAY := 86400

  /** `distance` is the great-circle distance in metres between two (latitude, longitude) positions. */
  datatype MergeConfig = MergeConfig(
    useBandTol: bool, freqTol: real, bandPad: real,
    freqOverride: Option<real>, bwOverride: Option<real>,
    useTimeTol: bool, ltiTolSec: real,
    useLocTol: bool, locTolM: real,
    distance: (real, real, real, real) -> real)

  /** Great-circle distance is the same in both directions. */
  ghost predicate Symmetric(cfg: MergeConfig) {
    forall a, b, c, d :: cfg.distance(a, b, c, d) == cfg.distance(c, d, a, b)
  }

  function Abs(x: real): real { if x < 0.0 then -x else x }

  /** `float(None)` raises, so a null frequency stops the scan, and a null bandwidth does when it is used.
      The rows come from a frame, where a null is `None` only in a column without a single number:
      see `FrameRecord` for what reaches this test. */
  predicate Raises(a: Record, b: Record, cfg: MergeConfig) {
    || a.frequency.Null? || b.frequency.Null?
    || (cfg.useBandTol && cfg.bwOverride.None? && (a.bandwidth.Null? || b.bandwidth.Null?))
  }

  /** Half a bandwidth in MHz; `None` stands for NaN. */
  function HalfWidth(r: Record, cfg: MergeConfig): Option<real> {
    if cfg.bwOverride.Some? then cfg.bwOverride
    else if r.bandwidth.Val? then Some(r.bandwidth.v / 2.0 / 1000.0) else None
  }

  function TuneTol(a: Record, b: Record, cfg: MergeConfig): Option<real> {
    if !cfg.useBandTol then Some(cfg.freqTol)
    else if HalfWidth(a, cfg).None? || HalfWidth(b, cfg).None? then None
    else
      var pad := if cfg.freqOverride.Some? then cfg.freqOverride.value else 0.0;
      Some(HalfWidth(a, cfg).value + HalfWidth(b, cfg).value + pad + pad + cfg.bandPad)
  }

  predicate FreqMatch(a: Record, b: Record, cfg: MergeConfig) {
    && a.frequency.Val? && b.frequency.Val? && TuneTol(a, b, cfg).Some?
    && Abs(a.frequency.v - b.frequency.v) <= TuneTol(a, b, cfg).value
  }

  function LtiGap(a: Record, b: Record): Option<real> {
    if a.lti.None? || b.lti.None? then None
    else Some(Abs((a.lti.value - b.lti.value) as real) * SECONDS_PER_DAY as real)
  }

  predicate TimeMatch(a: Record, b: Record, cfg: MergeConfig) {
    !cfg.useTimeTol || (LtiGap(a, b).Some? && LtiGap(a, b).value <= cfg.ltiTolSec)
  }

  function Distance(a: Record, b: Record, cfg: MergeConfig): Option<real> {
    if a.latitude.Val? && a.longitude.Val? && b.latitude.Val? && b.longitude.Val? then
      Some(cfg.distance(a.latitude.v, a.longitude.v, b.latitude.v, b.longitude.v))
    else None
  }

  predicate LocMatch(a: Record, b: Record, cfg: MergeConfig) {
    !cfg.useLocTol || (Distance(a, b, cfg).Some? && Distance(a, b, cfg).value <= cfg.locTolM)
  }

  predicate SameNet(a: Record, b: Record, cfg: MergeConfig) {
    FreqMatch(a, b, cfg) && TimeMatch(a, b, cfg) && LocMatch(a, b, cfg)
  }

  /** The numbers shown with an alert: ten-thousandths of a MHz, tenths of a second and of a metre. */
  datatype Reasons = Reasons(
    freqGap: int, freqTol: int,
    ltiGap: Option<int>, ltiTol: Option<real>,
    distance: Option<int>, locTol: Option<real>)

  function Tenths(x: Option<real>): Option<int> {
    if x.Some? then Some(RoundHalfEven(x.value * 10.0)) else None
  }

  function MatchReasons(a: Record, b: Record, cfg: MergeConfig): Reasons
    requires a.frequency.Val? && b.frequency.Val? && TuneTol(a, b, cfg).Some?
  {
    Reasons(RoundHalfEven(Abs(a.frequency.v - b.frequency.v) * 10000.0),
            RoundHalfEven(TuneTol(a, b, cfg).value * 10000.0),
            if cfg.useTimeTol then Tenths(LtiGap(a, b)) else None,
            if cfg.useTimeTol then Some(cfg.ltiTolSec) else None,
            if cfg.useLocTol then Tenths(Distance(a, b, cfg)) else None,
            if cfg.useLocTol then Some(cfg.locTolM) else None)
  }

  /* ------------------------------------------------------- the test in the cells */

  /** The settings a deployment starts from: overlapping bands, five seconds and a hundred metres. */
  ghost predicate IsDefault(cfg: MergeConfig) {
    && cfg.useBandTol && cfg.freqTol == 0.4 && cfg.bandPad == 0.0 && cfg.freqOverride.None? && cfg.bwOverride.None?
    && cfg.useTimeTol && cfg.ltiTolSec == 5.0 && cfg.useLocTol && cfg.locTolM == 100.0
    && forall x, y :: cfg.distance(x, y, x, y) == 0.0
  }

  /** Frequencies apart by at most `tol` MHz. */
  predicate FrequenciesWithin(a: Record, b: Record, tol: real) {
    a.frequency.Val? && b.frequency.Val? && -tol <= a.frequency.v - b.frequency.v <= tol
  }

  /** The frequency test: a fixed tolerance, fixed half widths, or the two bandwidths in kHz. */
  predicate FreqTestInCells(a: Record, b: Record, cfg: MergeConfig) {
    var slack := (if cfg.freqOverride.Some? then 2.0 * cfg.freqOverride.value else 0.0) + cfg.bandPad;
    if !cfg.useBandTol then FrequenciesWithin(a, b, cfg.freqTol)
    else if cfg.bwOverride.Some? then FrequenciesWithin(a, b, 2.0 * cfg.bwOverride.value + slack)
    else
      && a.frequency.Val? && b.frequency.Val? && a.bandwidth.Val? && b.bandwidth.Val?
      && 2000.0 * (a.frequency.v - b.frequency.v) <= a.bandwidth.v + b.bandwidth.v + 2000.0 * slack
      && 2000.0 * (b.frequency.v - a.frequency.v) <= a.bandwidth.v + b.bandwidth.v + 2000.0 * slack
  }

  /** Both dates present, and at most the tolerance apart at 86400 seconds a day. */
  predicate TimeTestInCells(a: Record, b: Record, tolSec: real) {
    && a.lti.Some? && b.lti.Some?
    && (86400 * (a.lti.value - b.lti.value)) as real <= tolSec
    && (86400 * (b.lti.value - a.lti.value)) as real <= tolSec
  }

  predicate LocTestInCells(a: Record, b: Record, cfg: MergeConfig) {
    && a.latitude.Val? && a.longitude.Val? && b.latitude.Val? && b.longitude.Val?
    && cfg.distance(a.latitude.v, a.longitude.v, b.latitude.v, b.longitude.v) <= cfg.locTolM
  }

  lemma GapInSeconds(a: Record, b: Record, tolSec: real)
    ensures LtiGap(a, b).Some? && LtiGap(a, b).value <= tolSec <==> TimeTestInCells(a, b, tolSec)
  {
    if a.lti.Some? && b.lti.Some? {
      var days := a.lti.value - b.lti.value;
      assert (86400 * days) as real == days as real * 86400.0;
      assert (86400 * -days) as real == -(days as real * 86400.0);
    }
  }

  /** Under any settings the test is what the cells of the two nets say. */
  lemma SameNetIff(a: Record, b: Record, cfg: MergeConfig)
    ensures SameNet(a, b, cfg) <==>
            && FreqTestInCells(a, b, cfg)
            && (cfg.useTimeTol ==> TimeTestInCells(a, b, cfg.ltiTolSec))
            && (cfg.useLocTol ==> LocTestInCells(a, b, cfg))
  {
    GapInSeconds(a, b, cfg.ltiTolSec);
  }

  /** Under the default settings two nets pass exactly when their bands meet, both were last seen on one
      day, and they are at most a hundred metres apart. */
  lemma SameNetDefaultIff(a: Record, b: Record, cfg: MergeConfig)
    requires IsDefault(cfg)
    ensures SameNet(a, b, cfg) <==>
            && a.frequency.Val? && b.frequency.Val? && a.bandwidth.Val? && b.bandwidth.Val?
            && 2000.0 * (a.frequency.v - b.frequency.v) <= a.bandwidth.v + b.bandwidth.v
            && 2000.0 * (b.frequency.v - a.frequency.v) <= a.bandwidth.v + b.bandwidth.v
            && a.lti.Some? && a.lti == b.lti
            && a.latitude.Val? && a.longitude.Val? && b.latitude.Val? && b.longitude.Val?
            && cfg.distance(a.latitude.v, a.longitude.v, b.latitude.v, b.longitude.v) <= 100.0
  {
    SameNetIff(a, b, cfg);
    assert TimeTestInCells(a, b, 5.0) <==> a.lti.Some? && a.lti == b.lti;
  }

  /** The tolerance that the frequency test applies, in MHz, from the settings and the bandwidths in kHz. */
  predicate IsFreqTol(a: Record, b: Record, cfg: MergeConfig, tol: real) {
    var slack := (if cfg.freqOverride.Some? then 2.0 * cfg.freqOverride.value else 0.0) + cfg.bandPad;
    if !cfg.useBandTol then tol == cfg.freqTol
    else if cfg.bwOverride.Some? then tol == 2.0 * cfg.bwOverride.value + slack
    else a.bandwidth.Val? && b.bandwidth.Val? && 2000.0 * tol == a.bandwidth.v + b.bandwidth.v + 2000.0 * slack
  }

  /** The numbers shown with a match: the gap and the tolerance in MHz to four decimals, the time gap in
      seconds and the distance in metres to one, each where its test is on, next to the setting itself. */
  ghost predicate ReasonsInCells(a: Record, b: Record, cfg: MergeConfig, r: Reasons) {
    && a.frequency.Val? && b.frequency.Val?
    && IsNearest(Apart(a.frequency.v, b.frequency.v) * 10000.0, r.freqGap)
    && (exists tol :: IsFreqTol(a, b, cfg, tol) && IsNearest(tol * 10000.0, r.freqTol))
    && r.ltiTol == (if cfg.useTimeTol then Some(cfg.ltiTolSec) else None)
    && (if cfg.useTimeTol then
          && a.lti.Some? && b.lti.Some?
          && r.ltiGap == Some(864000 * DaysApart(a.lti.value, b.lti.value))
        else r.ltiGap == None)
    && r.locTol == (if cfg.useLocTol then Some(cfg.locTolM) else None)
    && (if cfg.useLocTol then
          && a.latitude.Val? && a.longitude.Val? && b.latitude.Val? && b.longitude.Val? && r.distance.Some?
          && IsNearest(cfg.distance(a.latitude.v, a.longitude.v, b.latitude.v, b.longitude.v) * 10.0, r.distance.value)
        else r.distance == None)
  }

  function Apart(x: real, y: real): real { if x < y then y - x else x - y }

  function DaysApart(x: int, y: int): int { if x < y then y - x else x - y }

  lemma GapShown(a: Record, b: Record)
    requires a.lti.Some? && b.lti.Some?
    ensures Tenths(LtiGap(a, b)) == Some(864000 * DaysApart(a.lti.value, b.lti.value))
  {
    var days := DaysApart(a.lti.value, b.lti.value);
    assert LtiGap(a, b).value * 10.0 == (864000 * days) as real;
    RoundsToNearest(LtiGap(a, b).value * 10.0, 864000 * days);
  }

  lemma ReasonsShown(a: Record, b: Record, cfg: MergeConfig)
    requires SameNet(a, b, cfg)
    ensures ReasonsInCells(a, b, cfg, MatchReasons(a, b, cfg))
  {
    var r, tol := MatchReasons(a, b, cfg), TuneTol(a, b, cfg).value;
    RoundsToNearest(Abs(a.frequency.v - b.frequency.v) * 10000.0, r.freqGap);
    RoundsToNearest(tol * 10000.0, r.freqTol);
    assert IsFreqTol(a, b, cfg, tol);
    if cfg.useTimeTol {
      GapShown(a, b);
    }
    if cfg.useLocTol {
      RoundsToNearest(Distance(a, b, cfg).value * 10.0, r.distance.value);
    }
  }

  /** The test and its reasons do not depend on which net comes first. */
  lemma SameNetSymmetric(a: Record, b: Record, cfg: MergeConfig)
    requires Symmetric(cfg)
    ensures SameNet(a, b, cfg) <==> SameNet(b, a, cfg)
    ensures Raises(a, b, cfg) <==> Raises(b, a, cfg)
    ensures SameNet(a, b, cfg) ==> MatchReasons(a, b, cfg) == MatchReasons(b, a, cfg)
  {
    assert Distance(a, b, cfg) == Distance(b, a, cfg);
    assert LtiGap(a, b) == LtiGap(b, a);
    assert TuneTol(a, b, cfg) == TuneTol(b, a, cfg);
  }

  /* ---------------------------------------------------------------- the frame */

  /** Which numeric columns of a frame hold at least one number. */
  datatype Numeric = Numeric(frequency: bool, bandwidth: bool, latitude: bool, longitude: bool)

  /** A null becomes NaN beside numbers and stays `None` in a column of nulls. */
  function FrameNum(n: Num, numeric: bool): Num {
    if n.Val? then n else if numeric then NaN else Null
  }

  function FrameRecord(r: Record, c: Numeric): Record {
    r.(frequency := FrameNum(r.frequency, c.frequency), bandwidth := FrameNum(r.bandwidth, c.bandwidth),
       latitude := FrameNum(r.latitude, c.latitude), longitude := FrameNum(r.longitude, c.longitude))
  }

  /** Loading into a frame changes neither the test nor the reasons, only whether a null raises. */
  lemma FrameKeepsTest(a: Record, b: Record, c: Numeric, cfg: MergeConfig)
    ensures SameNet(FrameRecord(a, c), FrameRecord(b, c), cfg) <==> SameNet(a, b, cfg)
    ensures SameNet(a, b, cfg) ==> MatchReasons(FrameRecord(a, c), FrameRecord(b, c), cfg) == MatchReasons(a, b, cfg)
  {
    assert Distance(FrameRecord(a, c), FrameRecord(b, c), cfg) == Distance(a, b, cfg);
    assert TuneTol(FrameRecord(a, c), FrameRecord(b, c), cfg) == TuneTol(a, b, cfg);
  }

  /* ---------------------------------------------------------- candidate search */

  datatype Net = Net(netId: int, myNet: int, rec: Record)

  datatype Proposal = Proposal(lo: int, hi: int, reasons: Reasons)

  predicate IsCandidate(a: Net, b: Net, cfg: MergeConfig) {
    a.myNet != b.myNet && SameNet(a.rec, b.rec, cfg)
  }

  function ProposalOf(a: Net, b: Net, cfg: MergeConfig): Proposal
    requires IsCandidate(a, b, cfg)
  {
    Proposal(if a.netId < b.netId then a.netId else b.netId,
             if a.netId < b.netId then b.netId else a.netId,
             MatchReasons(a.rec, b.rec, cfg))
  }

  /** The scan reaches a cross-group pair that cannot be compared. */
  ghost predicate ScanRaises(nets: seq<Net>, cfg: MergeConfig) {
    exists i, j :: 0 <= i < j < |nets| && nets[i].myNet != nets[j].myNet && Raises(nets[i].rec, nets[j].rec, cfg)
  }

  ghost predicate DistinctNets(nets: seq<Net>) {
    forall i, j :: 0 <= i < j < |nets| ==> nets[i].netId != nets[j].netId
  }

  ghost predicate ProposedAt(nets: seq<Net>, cfg: MergeConfig, i: int, j: int, p: Proposal) {
    0 <= i < j < |nets| && IsCandidate(nets[i], nets[j], cfg) && p == ProposalOf(nets[i], nets[j], cfg)
  }

  ghost predicate IsProposed(nets: seq<Net>, cfg: MergeConfig, p: Proposal) {
    p.lo < p.hi && exists i, j :: ProposedAt(nets, cfg, i, j, p)
  }

  predicate ScannedBefore(p: (int, int), q: (int, int)) {
    p.0 < q.0 || (p.0 == q.0 && p.1 < q.1)
  }

  /** `list` was found at the places `at`, in scan order, all of them before `next`. */
  ghost predicate Listing(nets: seq<Net>, cfg: MergeConfig, list: seq<Proposal>, at: seq<(int, int)>,
                          next: (int, int)) {
    && |at| == |list|
    && (forall k :: 0 <= k < |at| ==> ProposedAt(nets, cfg, at[k].0, at[k].1, list[k]) && ScannedBefore(at[k], next))
    && (forall k, l :: 0 <= k < l < |at| ==> ScannedBefore(at[k], at[l]))
  }

  lemma ListingAppend(nets: seq<Net>, cfg: MergeConfig, list: seq<Proposal>, at: seq<(int, int)>, i: int, j: int,
                      p: Proposal)
    requires Listing(nets, cfg, list, at, (i, j)) && ProposedAt(nets, cfg, i, j, p)
    ensures Listing(nets, cfg, list + [p], at + [(i, j)], (i, j + 1))
  {
  }

  lemma ListingNext(nets: seq<Net>, cfg: MergeConfig, list: seq<Proposal>, at: seq<(int, int)>, next: (int, int),
                    next': (int, int))
    requires Listing(nets, cfg, list, at, next) && ScannedBefore(next, next')
    ensures Listing(nets, cfg, list, at, next')
  {
  }

  lemma ListingDistinct(nets: seq<Net>, cfg: MergeConfig, list: seq<Proposal>, at: seq<(int, int)>, next: (int, int))
    requires DistinctNets(nets) && Listing(nets, cfg, list, at, next)
    ensures forall k :: 0 <= k < |list| ==> IsProposed(nets, cfg, list[k])
    ensures forall k, l :: 0 <= k < l < |list| ==> (list[k].lo, list[k].hi) != (list[l].lo, list[l].hi)
  {
    forall k | 0 <= k < |list|
      ensures IsProposed(nets, cfg, list[k])
    {
      assert ProposedAt(nets, cfg, at[k].0, at[k].1, list[k]);
    }
    forall k, l | 0 <= k < l < |list|
      ensures (list[k].lo, list[k].hi) != (list[l].lo, list[l].hi)
    {
      TwoPlacesTwoPairs(nets, cfg, at[k], at[l], list[k], list[l]);
    }
  }

  lemma TwoPlacesTwoPairs(nets: seq<Net>, cfg: MergeConfig, at: (int, int), at': (int, int), p: Proposal, p': Proposal)
    requires DistinctNets(nets) && ScannedBefore(at, at')
    requires ProposedAt(nets, cfg, at.0, at.1, p) && ProposedAt(nets, cfg, at'.0, at'.1, p')
    ensures (p.lo, p.hi) != (p'.lo, p'.hi)
  {
  }

  /** Row `i` of the scan is done up to column `end`: nothing raised, and every candidate is listed. */
  ghost predicate RowScanned(nets: seq<Net>, cfg: MergeConfig, i: int, end: int, list: seq<Proposal>)
    requires 0 <= i < |nets| && end <= |nets|
  {
    forall j :: i < j < end && nets[i].myNet != nets[j].myNet ==>
      && !Raises(nets[i].rec, nets[j].rec, cfg)
      && (SameNet(nets[i].rec, nets[j].rec, cfg) ==> ProposalOf(nets[i], nets[j], cfg) in list)
  }

  /** The inner loop: one net against every later one. */
  method ScanRow(nets: seq<Net>, cfg: MergeConfig, i: nat, list0: seq<Proposal>, ghost at0: seq<(int, int)>)
    returns (list: seq<Proposal>, raised: bool, ghost at: seq<(int, int)>)
    requires i < |nets| && Listing(nets, cfg, list0, at0, (i, 0))
    ensures raised ==> ScanRaises(nets, cfg)
    ensures !raised ==>
              && Listing(nets, cfg, list, at, (i + 1, 0))
              && RowScanned(nets, cfg, i, |nets|, list) && list0 <= list
  {
    list, raised, at := list0, false, at0;
    ListingNext(nets, cfg, list, at, (i, 0), (i, i + 1));
    for j := i + 1 to |nets|
      invariant !raised
      invariant Listing(nets, cfg, list, at, (i, j)) && RowScanned(nets, cfg, i, j, list) && list0 <= list
    {
      var a, b := nets[i], nets[j];
      ListingNext(nets, cfg, list, at, (i, j), (i, j + 1));
      if a.myNet == b.myNet {
        continue;
      }
      if Raises(a.rec, b.rec, cfg) {
        raised := true;
        return;
      }
      if SameNet(a.rec, b.rec, cfg) {
        ListingAppend(nets, cfg, list, at, i, j, ProposalOf(a, b, cfg));
        list, at := list + [ProposalOf(a, b, cfg)], at + [(i as int, j)];
      }
    }
    ListingNext(nets, cfg, list, at, (i, |nets|), (i + 1, 0));
  }

  lemma RowScannedKept(nets: seq<Net>, cfg: MergeConfig, i: int, list: seq<Proposal>, list': seq<Proposal>)
    requires 0 <= i < |nets| && RowScanned(nets, cfg, i, |nets|, list) && list <= list'
    ensures RowScanned(nets, cfg, i, |nets|, list')
  {
    assert forall p :: p in list ==> p in list';
  }

  /** `list` has every cross-group pair that passes the test, nothing else, and no pair twice. */
  ghost predicate ListsCandidates(nets: seq<Net>, cfg: MergeConfig, list: seq<Proposal>) {
    && (forall k :: 0 <= k < |list| ==> IsProposed(nets, cfg, list[k]))
    && (forall i, j :: 0 <= i < j < |nets| && IsCandidate(nets[i], nets[j], cfg) ==>
         ProposalOf(nets[i], nets[j], cfg) in list)
    && (forall k, l :: 0 <= k < l < |list| ==> (list[k].lo, list[k].hi) != (list[l].lo, list[l].hi))
  }

  lemma ScanComplete(nets: seq<Net>, cfg: MergeConfig, list: seq<Proposal>, at: seq<(int, int)>)
    requires DistinctNets(nets) && Listing(nets, cfg, list, at, (|nets|, 0))
    requires forall x :: 0 <= x < |nets| ==> RowScanned(nets, cfg, x, |nets|, list)
    ensures !ScanRaises(nets, cfg) && ListsCandidates(nets, cfg, list)
  {
    ListingDistinct(nets, cfg, list, at, (|nets|, 0));
    forall i, j | 0 <= i < j < |nets| && nets[i].myNet != nets[j].myNet
      ensures !Raises(nets[i].rec, nets[j].rec, cfg)
    {
      assert RowScanned(nets, cfg, i, |nets|, list);
    }
    forall i, j | 0 <= i < j < |nets| && IsCandidate(nets[i], nets[j], cfg)
      ensures ProposalOf(nets[i], nets[j], cfg) in list
    {
      assert RowScanned(nets, cfg, i, |nets|, list);
    }
  }

  /** The double loop over the nets.  It raises exactly when a cross-group pair cannot be compared. */
  method ProposePairs(nets: seq<Net>, cfg: MergeConfig) returns (found: Option<seq<Proposal>>)
    requires DistinctNets(nets)
    ensures found.None? <==> ScanRaises(nets, cfg)
    ensures found.Some? ==> ListsCandidates(nets, cfg, found.value)
  {
    var list: seq<Proposal> := [];
    ghost var at: seq<(int, int)> := [];
    for i := 0 to |nets|
      invariant Listing(nets, cfg, list, at, (i, 0))
      invariant forall x :: 0 <= x < i ==> RowScanned(nets, cfg, x, |nets|, list)
    {
      var more, raised, at' := ScanRow(nets, cfg, i, list, at);
      if raised {
        return None;
      }
      forall x | 0 <= x < i
        ensures RowScanned(nets, cfg, x, |nets|, more)
      {
        RowScannedKept(nets, cfg, x, list, more);
      }
      list, at := more, at';
    }
    ScanComplete(nets, cfg, list, at);
    found := Some(list);
  }
}
