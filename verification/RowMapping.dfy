/** Rows as dictionaries, with the table's column names and cells on one side and the frame's on the other. */
module RowMapping {
  import opened Grouping
  import opened IdText
  import opened Timestamps

  /** The nine columns with a different spelling on each side. */
  datatype Renamed = FFID | FREQUENCY | BANDWIDTH | RDFS | FTI | LTI | NTI | MODULATION | SIGNAL_TYPE

  /** A column name: the table's or the frame's spelling of a renamed column, or one shared by both. */
  datatype Name = Table(c: Renamed) | Frame(c: Renamed) | Plain(s: string)

  datatype Calendar = Calendar(year: nat, month: nat, day: nat)

  /** A cell.  A date column holds a date in the table, its text when read, and a time in the frame, or the
      text of one where a fold has written it. */
  datatype Cell = Null | NaN | Int(i: int) | Real(x: real) | Text(s: string) | Day(d: Calendar) | Time(t: Stamp)

  type Row = map<Name, Cell>

  const NET_ID := Plain("net_id")
  const ROW_TYPE := Plain("Row_Type")

  predicate IsDate(c: Renamed) { c.FTI? || c.LTI? }

  predicate IsCount(c: Renamed) { c.FFID? || c.NTI? }

  function FrameName(n: Name): Name { if n.Table? then Frame(n.c) else n }

  function TableName(n: Name): Name { if n.Frame? then Table(n.c) else n }

  predicate Skipped(n: Name) { n == NET_ID || n == ROW_TYPE }

  /* -------------------------------------------------------------------- dates */

  function Midnight(d: Calendar): Stamp { Stamp(d.year, d.month, d.day, 0, 0, 0) }

  function DateOf(t: Stamp): Calendar { Calendar(t.year, t.month, t.day) }

  predicate IsCalendar(d: Calendar) { IsTime(Midnight(d)) }

  /** A date as a read returns it, `YYYY-MM-DD`. */
  function IsoText(d: Calendar): string
    requires IsCalendar(d)
  {
    Four(d.year) + (['-'] + (Two(d.month) + (['-'] + Two(d.day))))
  }

  function ParseIso(s: string): Records.Option<Stamp> {
    if |s| == 10 && AllDigits(s[..4]) && s[4] == '-' && AllDigits(s[5..7]) && s[7] == '-' && AllDigits(s[8..]) then
      var t := Stamp(DigitsValue(s[..4]), DigitsValue(s[5..7]), DigitsValue(s[8..]), 0, 0, 0);
      if IsTime(t) then Records.Some(t) else Records.None
    else Records.None
  }

  lemma IsoRoundTrip(d: Calendar)
    requires IsCalendar(d)
    ensures ParseIso(IsoText(d)) == Records.Some(Midnight(d))
  {
    var s := IsoText(d);
    FourValue(d.year);
    TwoValue(d.month);
    TwoValue(d.day);
    assert s[..4] == Four(d.year) && s[5..7] == Two(d.month) && s[8..] == Two(d.day);
  }

  /* -------------------------------------------------------------------- cells */

  function Clean(v: Cell): Cell { if v.NaN? then Null else v }

  /** What a read returns for a stored cell. */
  function ReadCell(v: Cell): Cell
    requires v.Day? ==> IsCalendar(v.d)
  {
    if v.Day? then Text(IsoText(v.d)) else v
  }

  function FrameCell(n: Name, v: Cell): Cell {
    if n.Table? && IsDate(n.c) then
      if v.Text? && ParseIso(v.s).Some? then Time(ParseIso(v.s).value) else Null
    else Clean(v)
  }

  /** Rounding toward zero, as `int` does. */
  function Truncated(x: real): int { if x >= 0.0 then x.Floor else -((-x).Floor) }

  /** The time in a date cell of the frame. */
  function CellTime(v: Cell): Records.Option<Stamp> {
    if v.Time? then Records.Some(v.t) else if v.Text? then ToDt(BUILDING_FMTS, v.s) else Records.None
  }

  /** A time keeps only its date, a count becomes an integer. */
  function TableCell(n: Name, v: Cell): Cell {
    if n.Frame? && IsDate(n.c) then
      if CellTime(v).Some? then Day(DateOf(CellTime(v).value)) else Null
    else if n.Frame? && IsCount(n.c) && v.Real? then Int(Truncated(v.x))
    else Clean(v)
  }

  /* --------------------------------------------------------------------- rows */

  predicate IsScalar(v: Cell) { !v.Day? && !v.Time? }

  /** A stored row: no frame spelling, dates in the date columns, integers in the integer columns. */
  predicate IsStoredRow(row: Row) {
    forall n :: n in row ==>
      && !n.Frame?
      && (if n.Table? && IsDate(n.c) then row[n].Null? || (row[n].Day? && IsCalendar(row[n].d)) else IsScalar(row[n]))
      && (n.Table? && IsCount(n.c) ==> row[n].Null? || row[n].Int?)
  }

  predicate IsDateText(v: Cell) { v.Text? && ParseIso(v.s).Some? }

  /** The same row as a read returns it. */
  predicate IsReadRow(row: Row) {
    forall n :: n in row ==>
      && !n.Frame? && IsScalar(row[n])
      && (n.Table? && IsDate(n.c) ==> row[n].Null? || IsDateText(row[n]))
  }

  predicate IsFrameDate(v: Cell) { v.Null? || v.NaN? || v.Text? || (v.Time? && IsTime(v.t)) }

  predicate IsFrameRow(row: Row) {
    forall n :: n in row ==>
      && !n.Table?
      && (if n.Frame? && IsDate(n.c) then IsFrameDate(row[n]) else IsScalar(row[n]))
      && (n.Frame? && IsCount(n.c) ==> !row[n].Text?)
  }

  function ReadRow(row: Row): Row
    requires IsStoredRow(row)
  {
    map n | n in row :: ReadCell(row[n])
  }

  /** The frame row: each cell under its frame name. */
  function ToFrame(row: Row): Row
    requires IsReadRow(row)
  {
    map n | n in row :: FrameName(n) := FrameCell(n, row[n])
  }

  /** The row stored, without the two columns that callers set themselves. */
  function ToTable(row: Row): Row
    requires IsFrameRow(row)
  {
    map n | n in row && !Skipped(n) :: TableName(n) := TableCell(n, row[n])
  }

  /** The loop over the cells of a row read from a table. */
  method CassandraRowToDfRow(row: Row) returns (out: Row)
    requires IsReadRow(row)
    ensures out == ToFrame(row)
  {
    out := map[];
    var left := row.Keys;
    while left != {}
      invariant left <= row.Keys
      invariant forall n :: n in row && n !in left ==> FrameName(n) in out && out[FrameName(n)] == FrameCell(n, row[n])
      invariant forall m :: m in out ==> exists n :: n in row && n !in left && FrameName(n) == m
      decreases left
    {
      var k := PickName(left);
      out := out[FrameName(k) := FrameCell(k, row[k])];
      left := left - {k};
    }
    SameMap(out, ToFrame(row));
  }

  /** The loop over the cells of a frame row. */
  method DfRowToCassandra(row: Row) returns (out: Row)
    requires IsFrameRow(row)
    ensures out == ToTable(row)
  {
    out := map[];
    var left := row.Keys;
    while left != {}
      invariant left <= row.Keys
      invariant forall n :: n in row && n !in left && !Skipped(n) ==>
                TableName(n) in out && out[TableName(n)] == TableCell(n, row[n])
      invariant forall m :: m in out ==> exists n :: n in row && n !in left && !Skipped(n) && TableName(n) == m
      decreases left
    {
      var k := PickName(left);
      left := left - {k};
      if Skipped(k) {
        continue;
      }
      out := out[TableName(k) := TableCell(k, row[k])];
    }
    SameMap(out, ToTable(row));
  }

  method PickName(s: set<Name>) returns (k: Name)
    requires s != {}
    ensures k in s
  {
    k :| k in s;
  }

  /* -------------------------------------------------------------- round trips */

  /** The columns written, with NaN as null. */
  function Cleaned(row: Row): Row {
    map n | n in row && !Skipped(n) :: Clean(row[n])
  }

  lemma StoredIsRead(row: Row)
    requires IsStoredRow(row)
    ensures IsReadRow(ReadRow(row))
  {
    forall n | n in row && row[n].Day?
      ensures IsDateText(ReadRow(row)[n])
    {
      IsoRoundTrip(row[n].d);
    }
  }

  lemma StoredCellReturns(n: Name, v: Cell)
    requires !n.Frame?
    requires if n.Table? && IsDate(n.c) then v.Null? || (v.Day? && IsCalendar(v.d)) else IsScalar(v)
    requires n.Table? && IsCount(n.c) ==> v.Null? || v.Int?
    ensures TableCell(FrameName(n), FrameCell(n, ReadCell(v))) == Clean(v)
  {
    if v.Day? {
      IsoRoundTrip(v.d);
    }
  }

  lemma StoredIsFrame(row: Row)
    requires IsStoredRow(row)
    ensures IsReadRow(ReadRow(row)) && IsFrameRow(ToFrame(ReadRow(row)))
  {
    StoredIsRead(row);
    var frame := ToFrame(ReadRow(row));
    forall m | m in frame
      ensures !m.Table?
      ensures if m.Frame? && IsDate(m.c) then IsFrameDate(frame[m]) else IsScalar(frame[m])
      ensures m.Frame? && IsCount(m.c) ==> !frame[m].Text?
    {
      var n :| n in row && FrameName(n) == m;
      assert frame[m] == FrameCell(n, ReadCell(row[n]));
    }
  }

  /** Reading a stored row and writing it back stores the same row, dates included, but for NaN, which
      becomes null, and the columns the caller sets. */
  lemma TableRoundTrip(row: Row)
    requires IsStoredRow(row)
    ensures IsReadRow(ReadRow(row)) && IsFrameRow(ToFrame(ReadRow(row)))
    ensures ToTable(ToFrame(ReadRow(row))) == Cleaned(row)
  {
    StoredIsFrame(row);
    var back := ToTable(ToFrame(ReadRow(row)));
    var want := Cleaned(row);
    forall n | n in want
      ensures n in back && back[n] == want[n]
    {
      assert FrameName(n) in ToFrame(ReadRow(row));
      assert TableName(FrameName(n)) == n;
      StoredCellReturns(n, row[n]);
    }
    forall n | n in back
      ensures n in want
    {
    }
    assert back.Keys == want.Keys;
    SameMap(back, want);
  }

  /** A date cell that a fold wrote as text is stored as the date of the time it prints. */
  lemma PrintedTimeStored(t: Stamp, c: Renamed)
    requires IsTime(t) && IsDate(c)
    ensures TableCell(Frame(c), Text(Render(t))) == TableCell(Frame(c), Time(t)) == Day(DateOf(t))
  {
    PrintReadRoundTrip(t);
  }

  /** Equal as Python compares them: an integer equals the same number in floating point. */
  predicate SameCell(v: Cell, w: Cell) {
    v == w || (v.Int? && w.Real? && v.i as real == w.x)
  }

  predicate SameRow(a: Row, b: Row) {
    a.Keys == b.Keys && forall n :: n in a ==> SameCell(a[n], b[n])
  }

  function Written(row: Row): Row {
    map n | n in row && !Skipped(n) :: row[n]
  }

  /** A cell that the table can hold as it is: no NaN, times at midnight and not as text, whole counts. */
  predicate Survives(n: Name, v: Cell) {
    && !v.NaN?
    && (n.Frame? && IsDate(n.c) ==> v.Null? || (v.Time? && v.t == Midnight(DateOf(v.t))))
    && (n.Frame? && IsCount(n.c) && v.Real? ==> v.x == v.x.Floor as real)
  }

  lemma CellTimeHasDate(v: Cell)
    requires v.Time? ==> IsTime(v.t)
    ensures CellTime(v).Some? ==> IsCalendar(DateOf(CellTime(v).value))
  {
    if v.Text? && CellTime(v).Some? {
      var f := FirstAmong(BUILDING_FMTS, Strip(v.s));
      assert IsTime(Parse(f, Strip(v.s)).value);
    }
  }

  lemma FrameIsStored(row: Row)
    requires IsFrameRow(row)
    ensures IsStoredRow(ToTable(row))
  {
    var stored := ToTable(row);
    forall m | m in stored
      ensures !m.Frame?
      ensures if m.Table? && IsDate(m.c) then stored[m].Null? || (stored[m].Day? && IsCalendar(stored[m].d))
              else IsScalar(stored[m])
      ensures m.Table? && IsCount(m.c) ==> stored[m].Null? || stored[m].Int?
    {
      var n :| n in row && !Skipped(n) && TableName(n) == m;
      assert stored[m] == TableCell(n, row[n]);
      CellTimeHasDate(row[n]);
    }
  }

  lemma DateCellReturns(c: Renamed, v: Cell)
    requires IsDate(c) && IsFrameDate(v)
    ensures var stored := TableCell(Frame(c), v);
            && (stored.Day? ==> IsCalendar(stored.d))
            && (SameCell(FrameCell(Table(c), ReadCell(stored)), v) <==> Survives(Frame(c), v))
  {
    var stored := TableCell(Frame(c), v);
    CellTimeHasDate(v);
    if stored.Day? {
      var d := DateOf(CellTime(v).value);
      IsoRoundTrip(d);
      assert FrameCell(Table(c), ReadCell(stored)) == Time(Midnight(d));
    } else {
      assert FrameCell(Table(c), ReadCell(stored)) == Cell.Null;
    }
  }

  lemma OtherCellReturns(n: Name, v: Cell)
    requires !n.Table? && IsScalar(v) && !(n.Frame? && IsDate(n.c)) && (n.Frame? && IsCount(n.c) ==> !v.Text?)
    ensures !TableCell(n, v).Day?
    ensures SameCell(FrameCell(TableName(n), ReadCell(TableCell(n, v))), v) <==> Survives(n, v)
  {
    if v.Real? && v.x == v.x.Floor as real {
      assert Truncated(v.x) == v.x.Floor;
    }
  }

  lemma FrameCellReturns(n: Name, v: Cell)
    requires !n.Table?
    requires if n.Frame? && IsDate(n.c) then IsFrameDate(v) else IsScalar(v)
    requires n.Frame? && IsCount(n.c) ==> !v.Text?
    ensures var stored := TableCell(n, v);
            && (stored.Day? ==> IsCalendar(stored.d))
            && (SameCell(FrameCell(TableName(n), ReadCell(stored)), v) <==> Survives(n, v))
  {
    if n.Frame? && IsDate(n.c) {
      DateCellReturns(n.c, v);
    } else {
      OtherCellReturns(n, v);
    }
  }

  lemma FrameRowReturns(row: Row)
    requires IsFrameRow(row)
    ensures IsStoredRow(ToTable(row)) && IsReadRow(ReadRow(ToTable(row)))
    ensures var back := ToFrame(ReadRow(ToTable(row)));
            && back.Keys == Written(row).Keys
            && forall n :: n in Written(row) ==> back[n] == FrameCell(TableName(n), ReadCell(TableCell(n, row[n])))
  {
    FrameIsStored(row);
    StoredIsRead(ToTable(row));
    var back := ToFrame(ReadRow(ToTable(row)));
    forall n | n in Written(row)
      ensures n in back && back[n] == FrameCell(TableName(n), ReadCell(TableCell(n, row[n])))
    {
      assert TableName(n) in ToTable(row);
      assert FrameName(TableName(n)) == n;
    }
  }

  /** Storing a frame row and reading it back gives an equal row exactly when every cell written survives. */
  lemma FrameRoundTripIff(row: Row)
    requires IsFrameRow(row)
    ensures IsStoredRow(ToTable(row)) && IsReadRow(ReadRow(ToTable(row)))
    ensures SameRow(ToFrame(ReadRow(ToTable(row))), Written(row)) <==>
            forall n :: n in row && !Skipped(n) ==> Survives(n, row[n])
  {
    FrameRowReturns(row);
    forall n | n in Written(row)
      ensures SameCell(FrameCell(TableName(n), ReadCell(TableCell(n, row[n]))), row[n]) <==> Survives(n, row[n])
    {
      FrameCellReturns(n, row[n]);
    }
  }

  /** The rows that a table holds: FTI and LTI are dates or null, FF_ID and NTI integers or null, and the other
      columns hold neither dates nor times. */
  lemma StoredRowIff(row: Row)
    ensures IsStoredRow(row) <==>
            forall n :: n in row ==>
              match n
              case Frame(_) => false
              case Plain(_) => !row[n].Day? && !row[n].Time?
              case Table(FTI) => row[n].Null? || (row[n].Day? && IsCalendar(row[n].d))
              case Table(LTI) => row[n].Null? || (row[n].Day? && IsCalendar(row[n].d))
              case Table(FFID) => row[n].Null? || row[n].Int?
              case Table(NTI) => row[n].Null? || row[n].Int?
              case Table(_) => !row[n].Day? && !row[n].Time?
  {
  }

  /** The rows of a frame: FTI and LTI are times, texts or null, FF_ID and NTI anything but text. */
  lemma FrameRowIff(row: Row)
    ensures IsFrameRow(row) <==>
            forall n :: n in row ==>
              match n
              case Table(_) => false
              case Plain(_) => !row[n].Day? && !row[n].Time?
              case Frame(FTI) => IsFrameDate(row[n])
              case Frame(LTI) => IsFrameDate(row[n])
              case Frame(FFID) => !row[n].Day? && !row[n].Time? && !row[n].Text?
              case Frame(NTI) => !row[n].Day? && !row[n].Time? && !row[n].Text?
              case Frame(_) => !row[n].Day? && !row[n].Time?
  {
  }

  predicate Unchanged(was: Cell, got: Cell) {
    got == if was == Cell.NaN then Cell.Null else was
  }

  /** FTI and LTI become midnight of the stored date, every other column stays. */
  predicate CellAsFrame(c: Renamed, was: Cell, got: Cell) {
    if (c == FTI || c == LTI) && was.Day? then
      got == Time(Stamp(was.d.year, was.d.month, was.d.day, 0, 0, 0))
    else Unchanged(was, got)
  }

  /** The renamed columns, and those with one spelling, of a stored row in the frame. */
  lemma FrameColumns(row: Row, c: Renamed, s: string)
    requires IsStoredRow(row)
    ensures IsReadRow(ReadRow(row))
    ensures var frame := ToFrame(ReadRow(row));
            && (Table(c) in row ==> Frame(c) in frame && CellAsFrame(c, row[Table(c)], frame[Frame(c)]))
            && (Plain(s) in row ==> Plain(s) in frame && Unchanged(row[Plain(s)], frame[Plain(s)]))
  {
    StoredIsRead(row);
    var frame := ToFrame(ReadRow(row));
    if Table(c) in row {
      assert FrameName(Table(c)) in frame;
      if row[Table(c)].Day? {
        IsoRoundTrip(row[Table(c)].d);
      }
    }
    if Plain(s) in row {
      assert FrameName(Plain(s)) in frame;
    }
  }

  /** The integer part of a number, toward zero. */
  predicate IsWholePart(x: real, i: int) {
    && (x >= 0.0 ==> i as real <= x < i as real + 1.0)
    && (x <= 0.0 ==> i as real - 1.0 < x <= i as real)
  }

  /** FTI and LTI keep the date of a time, NTI and FF_ID the integer part of a number, the rest stays. */
  predicate CellAsStored(c: Renamed, was: Cell, got: Cell) {
    if c == FTI || c == LTI then
      && (was.Time? ==> got == Day(Calendar(was.t.year, was.t.month, was.t.day)))
      && (was == Cell.Null || was == Cell.NaN ==> got == Cell.Null)
    else if (c == NTI || c == FFID) && was.Real? then got.Int? && IsWholePart(was.x, got.i)
    else Unchanged(was, got)
  }

  /** The columns stored for a frame row; the net id and the row type are left to the caller. */
  lemma TableColumns(row: Row, c: Renamed, s: string)
    requires IsFrameRow(row)
    ensures var stored := ToTable(row);
            && (Frame(c) in row ==> Table(c) in stored && CellAsStored(c, row[Frame(c)], stored[Table(c)]))
            && (Plain(s) in stored <==> Plain(s) in row && s != "net_id" && s != "Row_Type")
            && (Plain(s) in stored ==> Unchanged(row[Plain(s)], stored[Plain(s)]))
  {
    var stored := ToTable(row);
    if Frame(c) in row {
      assert TableName(Frame(c)) in stored;
    }
    if Plain(s) in row && !Skipped(Plain(s)) {
      assert TableName(Plain(s)) in stored;
    }
  }
}
