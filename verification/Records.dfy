/** The values that travel through the pipeline: one intercept record, its cells, and its band. */
module Records {

  datatype Option<+T> = None | Some(value: T)

  /** A numeric cell as pandas presents it: `None`, NaN or a number.  Both of the first two are null. */
  datatype Num = Null | NaN | Val(v: real)

  /** A non-null cell value. */
  datatype Value = Int(i: int) | Real(x: real) | Text(s: string)

  /** Dates are day numbers, as the `date` columns of the tables hold them.  `others` has one entry
      for each remaining non-null column. */
  datatype Record = Record(
    ffId: Option<int>, frequency: Num, bandwidth: Num, rdfs: Option<string>,
    latitude: Num, longitude: Num,
    fti: Option<int>, lti: Option<int>, nti: Option<int>,
    others: map<string, Value>)

  /** The columns that a fold copies: all of them except FTI, LTI and NTI. */
  datatype Column = FfId | Frequency | Bandwidth | Rdfs | Latitude | Longitude | Other(name: string)

  function NumCell(n: Num): Option<Value> {
    if n.Val? then Some(Real(n.v)) else None
  }

  function Cell(r: Record, c: Column): Option<Value> {
    match c
    case FfId => if r.ffId.Some? then Some(Int(r.ffId.value)) else None
    case Frequency => NumCell(r.frequency)
    case Bandwidth => NumCell(r.bandwidth)
    case Rdfs => if r.rdfs.Some? then Some(Text(r.rdfs.value)) else None
    case Latitude => NumCell(r.latitude)
    case Longitude => NumCell(r.longitude)
    case Other(name) => if name in r.others then Some(r.others[name]) else None
  }

  /** A null count adds nothing. */
  function Count(nti: Option<int>): int {
    if nti.Some? then nti.value else 0
  }

  /** Nearest integer, ties to even, as Python's `round`. */
  function RoundHalfEven(x: real): int {
    var f := x.Floor;
    var d := x - f as real;
    if d < 0.5 || (d == 0.5 && f % 2 == 0) then f else f + 1
  }

  /** `n` is the integer nearest to `x`, the even one of two at the same distance. */
  predicate IsNearest(x: real, n: int) {
    var d := x - n as real;
    -0.5 <= d <= 0.5 && (d == 0.5 || d == -0.5 ==> n % 2 == 0)
  }

  lemma RoundsToNearest(x: real, n: int)
    ensures RoundHalfEven(x) == n <==> IsNearest(x, n)
  {
    var f := x.Floor;
    if IsNearest(x, n) {
      assert n == f || n == f + 1;
    }
  }

  /* ------------------------------------------------------------------ bands */

  datatype Band = Band(lo: real, hi: real)

  /** The occupied band, frequency plus or minus half the bandwidth (kHz to MHz).  A bandwidth of
      `None` counts as zero width; a NaN in either cell gives edges that no comparison accepts. */
  function RecordBand(r: Record): Option<Band> {
    if !r.frequency.Val? || r.bandwidth.NaN? then None
    else
      var half := if r.bandwidth.Val? then r.bandwidth.v / 2.0 / 1000.0 else 0.0;
      Some(Band(r.frequency.v - half, r.frequency.v + half))
  }

  /** The band test of the router: `report`, widened by `pad`, meets `net`. */
  predicate Overlaps(report: Band, net: Band, pad: real) {
    report.lo - pad <= net.hi && report.hi + pad >= net.lo
  }

  function Widen(held: Option<Band>, got: Option<Band>): Option<Band> {
    if held.None? then got
    else if got.None? then held
    else Some(Band(if got.value.lo < held.value.lo then got.value.lo else held.value.lo,
                   if got.value.hi > held.value.hi then got.value.hi else held.value.hi))
  }

  /* ------------------------------------------------------------- signatures */

  /** What identifies a raw report for the idempotency guard; the frequency in millionths of a MHz. */
  datatype Signature = Signature(
    ffId: Option<int>, fti: Option<int>, lti: Option<int>, nti: Option<int>, frequency: Option<int>)

  function Sig(r: Record): Signature {
    Signature(r.ffId, r.fti, r.lti, r.nti,
              if r.frequency.Val? then Some(RoundHalfEven(r.frequency.v * 1000000.0)) else None)
  }

  /* ------------------------------------------------------------------ folds */

  function Earlier(a: Option<int>, b: Option<int>): Option<int> {
    if a.None? then b else if b.None? then a else if b.value < a.value then b else a
  }

  function Later(a: Option<int>, b: Option<int>): Option<int> {
    if a.None? then b else if b.None? then a else if b.value > a.value then b else a
  }

  /** The new report may overwrite the displayed cells. */
  predicate Supersedes(got: Record, held: Record) {
    got.lti.Some? && (held.lti.None? || got.lti.value >= held.lti.value)
  }

  /** `old` with every non-null cell of `new` copied over it. */
  function Overlay(held: Record, got: Record): Record {
    held.(ffId := if got.ffId.Some? then got.ffId else held.ffId,
         frequency := if got.frequency.Val? then got.frequency else held.frequency,
         bandwidth := if got.bandwidth.Val? then got.bandwidth else held.bandwidth,
         rdfs := if got.rdfs.Some? then got.rdfs else held.rdfs,
         latitude := if got.latitude.Val? then got.latitude else held.latitude,
         longitude := if got.longitude.Val? then got.longitude else held.longitude,
         others := held.others + got.others)
  }

  /** One re-intercept folded into a stored record. */
  function Fold(held: Record, got: Record): Record {
    var cells := if Supersedes(got, held) then Overlay(held, got) else held;
    var o, n := Count(held.nti), Count(got.nti);
    cells.(fti := Earlier(held.fti, got.fti),
           lti := Later(held.lti, got.lti),
           nti := if o != 0 || n != 0 then Some(o + n) else held.nti)
  }

  /** The record left by folding `reports` in order into the first of them. */
  function FoldAll(reports: seq<Record>): Record
    requires |reports| > 0
  {
    if |reports| == 1 then reports[0]
    else Fold(FoldAll(reports[..|reports| - 1]), reports[|reports| - 1])
  }

  /** The band that widening by each report's band leaves. */
  function Hull(reports: seq<Record>): Option<Band> {
    if |reports| == 0 then None
    else Widen(Hull(reports[..|reports| - 1]), RecordBand(reports[|reports| - 1]))
  }

  function TotalCount(reports: seq<Record>): int {
    if |reports| == 0 then 0
    else TotalCount(reports[..|reports| - 1]) + Count(reports[|reports| - 1].nti)
  }
}
