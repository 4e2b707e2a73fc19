/** The preparation of the square's data: the levelling table (benchmark ids as strings,
    one row per levelling epoch) and the satellite tables of each scatterer file (an info
    table and a measurement table per file, the ascending and descending info tables of a
    satellite stacked). Tables arrive as values; reading and writing files is left out. */
module SquareTreatment {
  import opened Common
  import opened Frames
  import opened Dates

  // ---------------------------------------------------------------------------
  // Levelling
  // ---------------------------------------------------------------------------

  /** The epoch columns of the levelling sheet, oldest first. */
  const EpochNames: seq<string> :=
    ["mag-93", "ott-03", "ott-04", "lug-05", "giu-06", "lug-08", "lug-10", "lug-12", "giu-14", "giu-16", "giu-18", "giu-20"]

  /** The month of each epoch, as `YYYY-MM`. */
  const EpochTexts: seq<string> :=
    ["1993-05", "2003-10", "2004-10", "2005-07", "2006-06", "2008-07", "2010-07", "2012-07", "2014-06", "2016-06", "2018-06", "2020-06"]

  /** The dates the epochs stand for: the first day of each month. */
  const Epochs: seq<Date> :=
    [Date(1993, 5, 1), Date(2003, 10, 1), Date(2004, 10, 1), Date(2005, 7, 1), Date(2006, 6, 1), Date(2008, 7, 1),
     Date(2010, 7, 1), Date(2012, 7, 1), Date(2014, 6, 1), Date(2016, 6, 1), Date(2018, 6, 1), Date(2020, 6, 1)]

  /** `[datetime.strptime(t, fmt) for t in texts]`: the first text that does not parse
      raises. */
  function ParseAll(fmt: Format, texts: seq<string>): (r: Result<seq<Date>>)
    ensures r.Ok? <==> forall k :: 0 <= k < |texts| ==> Strptime(fmt, texts[k]).Ok?
    ensures r.Ok? ==> |r.value| == |texts| && forall k :: 0 <= k < |texts| ==> r.value[k] == Strptime(fmt, texts[k]).value
    ensures r.Err? ==> exists k :: 0 <= k < |texts| && Strptime(fmt, texts[k]) == Err(r.error)
    decreases |texts|
  {
    if texts == [] then Ok([])
    else match Strptime(fmt, texts[0])
      case Err(e) => Err(e)
      case Ok(d) =>
        match ParseAll(fmt, texts[1..])
        case Err(e) => Err(e)
        case Ok(rest) => Ok([d] + rest)
  }

  /** A month written `YYYY-MM` parses to the first of that month. */
  lemma EpochTextParses(y: nat, m: nat)
    requires 1 <= y <= 9999 && 1 <= m <= 12
    ensures Strptime(EpochFormat, FourDigits(y) + "-" + TwoDigits(m)) == Ok(Date(y, m, 1))
  {
    var d := Date(y, m, 1);
    assert ValidDate(d);
    EpochRoundTrip(d);
    var tail := EpochFormat[1..];
    assert tail == [Lit('-'), Month] && tail[1..] == [Month] && tail[1..][1..] == [];
    assert Strftime([Month], d) == TwoDigits(m) + Strftime([], d) == TwoDigits(m);
    assert Strftime(tail, d) == "-" + TwoDigits(m);
    assert Strftime(EpochFormat, d) == FourDigits(y) + Strftime(tail, d);
    assert FourDigits(y) + ("-" + TwoDigits(m)) == FourDigits(y) + "-" + TwoDigits(m);
  }

  /** The twelve epochs pair with twelve dates, parsed to the first of the month. */
  lemma EpochDates()
    ensures ParseAll(EpochFormat, EpochTexts) == Ok(Epochs)
    ensures |EpochNames| == |Epochs| == 12
  {
    forall k | 0 <= k < 12
      ensures Strptime(EpochFormat, EpochTexts[k]) == Ok(Epochs[k])
    {
      EpochTextShape(k);
      EpochTextParses(Epochs[k].year, Epochs[k].month);
    }
    ParseAllOk(EpochFormat, EpochTexts, Epochs);
  }

  lemma ParseAllOk(fmt: Format, texts: seq<string>, dates: seq<Date>)
    requires |texts| == |dates|
    requires forall k :: 0 <= k < |texts| ==> Strptime(fmt, texts[k]) == Ok(dates[k])
    ensures ParseAll(fmt, texts) == Ok(dates)
  {
    var r := ParseAll(fmt, texts);
    assert r.Ok?;
    assert r.value == dates;
  }

  /** The epoch dates are strictly increasing. */
  lemma EpochsIncreasing()
    ensures forall k, l :: 0 <= k < l < 12 ==> Before(Epochs[k], Epochs[l])
  {
  }

  /** Each epoch text is its date's year and month, zero-padded. */
  lemma EpochTextShape(k: nat)
    requires k < 12
    ensures 1 <= Epochs[k].year <= 9999 && 1 <= Epochs[k].month <= 12 && Epochs[k].day == 1
    ensures EpochTexts[k] == FourDigits(Epochs[k].year) + "-" + TwoDigits(Epochs[k].month)
  {
    if k < 3 {
      EpochTextShapeFirst(k);
    } else if k < 6 {
      EpochTextShapeSecond(k);
    } else if k < 9 {
      EpochTextShapeThird(k);
    } else {
      EpochTextShapeFourth(k);
    }
  }

  /** The same, three epochs at a time. */
  lemma EpochTextShapeFirst(k: nat)
    requires k < 3
    ensures EpochTexts[k] == FourDigits(Epochs[k].year) + "-" + TwoDigits(Epochs[k].month)
  {
    if k == 0 {
      EpochText(1993, 5, "1993-05");
    } else if k == 1 {
      EpochText(2003, 10, "2003-10");
    } else {
      EpochText(2004, 10, "2004-10");
    }
  }

  lemma EpochTextShapeSecond(k: nat)
    requires 3 <= k < 6
    ensures EpochTexts[k] == FourDigits(Epochs[k].year) + "-" + TwoDigits(Epochs[k].month)
  {
    if k == 3 {
      EpochText(2005, 7, "2005-07");
    } else if k == 4 {
      EpochText(2006, 6, "2006-06");
    } else {
      EpochText(2008, 7, "2008-07");
    }
  }

  lemma EpochTextShapeThird(k: nat)
    requires 6 <= k < 9
    ensures EpochTexts[k] == FourDigits(Epochs[k].year) + "-" + TwoDigits(Epochs[k].month)
  {
    if k == 6 {
      EpochText(2010, 7, "2010-07");
    } else if k == 7 {
      EpochText(2012, 7, "2012-07");
    } else {
      EpochText(2014, 6, "2014-06");
    }
  }

  lemma EpochTextShapeFourth(k: nat)
    requires 9 <= k < 12
    ensures EpochTexts[k] == FourDigits(Epochs[k].year) + "-" + TwoDigits(Epochs[k].month)
  {
    if k == 9 {
      EpochText(2016, 6, "2016-06");
    } else if k == 10 {
      EpochText(2018, 6, "2018-06");
    } else {
      EpochText(2020, 6, "2020-06");
    }
  }

  lemma EpochText(y: nat, m: nat, text: string)
    requires 1000 <= y <= 9999 && 1 <= m <= 12 && |text| == 7 && text[4] == '-'
    requires text[0] as int - '0' as int == y / 1000 && text[1] as int - '0' as int == y / 100 % 10
    requires text[2] as int - '0' as int == y / 10 % 10 && text[3] as int - '0' as int == y % 10
    requires text[5] as int - '0' as int == m / 10 && text[6] as int - '0' as int == m % 10
    ensures text == FourDigits(y) + "-" + TwoDigits(m)
  {
  }

  /** `benchmarks[datenames].transpose()` indexed by the epoch dates: one row per epoch, one
      column per benchmark. An epoch column missing from the sheet is a KeyError. */
  function LevellingData(benchmarks: Frame<string, string>): (r: Result<Frame<Date, string>>)
    requires WellFormed(benchmarks)
  {
    match SelectColumns(benchmarks, EpochNames)
    case Err(e) => Err(e)
    case Ok(byEpoch) =>
      var t := Transpose(byEpoch);
      match ParseAll(EpochFormat, EpochTexts)
      case Err(e) => Err(e)
      case Ok(dates) => Ok(Frame(dates, t.columns, t.cells))
  }

  /** The levelling table has the twelve epoch dates as rows and the benchmarks as columns,
      and holds at (epoch k, benchmark i) the sheet's value for benchmark i in epoch column k. */
  lemma LevellingDataSpec(benchmarks: Frame<string, string>, k: nat, i: nat)
    requires WellFormed(benchmarks)
    ensures LevellingData(benchmarks).Ok? <==> forall e :: 0 <= e < 12 ==> EpochNames[e] in benchmarks.columns
    ensures LevellingData(benchmarks).Ok? ==>
              var f := LevellingData(benchmarks).value;
              && WellFormed(f) && f.index == Epochs && f.columns == benchmarks.index
              && (k < 12 && i < |benchmarks.index| ==> f.cells[k][i] == CellAt(benchmarks, i, EpochNames[k]))
  {
    EpochDates();
    var s := SelectColumns(benchmarks, EpochNames);
    if s.Ok? && k < 12 && i < |benchmarks.index| {
      TransposeCells(s.value, k, i);
    }
  }

  // ---------------------------------------------------------------------------
  // readSatelliteData
  // ---------------------------------------------------------------------------

  /** A scatterer's info table: the selected numeric columns, and the TYPE column (the data
      type of the file, on every row). */
  datatype InfoTable = InfoTable(frame: Frame<string, string>, kind: seq<string>)

  predicate ValidInfo(t: InfoTable) {
    WellFormed(t.frame) && |t.kind| == |t.frame.index|
  }

  /** `(sat + '-' + datatype + '-{}').format(x)` */
  function ScattererId(sat: string, kind: string, id: string): (s: string)
    ensures |s| == |sat| + |kind| + 2 + |id|
  {
    sat + "-" + kind + "-" + id
  }

  /** For one satellite and data type, distinct ids give distinct scatterer ids. */
  lemma ScattererIdInjective(sat: string, kind: string, a: string, b: string)
    requires ScattererId(sat, kind, a) == ScattererId(sat, kind, b)
    ensures a == b
  {
    var n := |sat| + |kind| + 2;
    assert ScattererId(sat, kind, a)[n..] == a;
    assert ScattererId(sat, kind, b)[n..] == b;
  }

  predicate IsLos(kind: string) {
    kind == "asc" || kind == "des"
  }

  /** The row labels after renaming: line-of-sight files are indexed by their ID column,
      vertical files by row position. */
  function RowLabels(ids: seq<int>, rows: nat, sat: string, kind: string): (labels: seq<string>)
    requires IsLos(kind) ==> |ids| == rows
    ensures |labels| == rows
  {
    if IsLos(kind) then seq(rows, r requires 0 <= r < rows => ScattererId(sat, kind, IntToString(ids[r])))
    else seq(rows, r requires 0 <= r < rows => ScattererId(sat, kind, NatToString(r)))
  }

  /** Distinct IDs, or distinct row positions, give distinct scatterer ids. */
  lemma RowLabelsDistinct(ids: seq<int>, rows: nat, sat: string, kind: string)
    requires IsLos(kind) ==> |ids| == rows && Distinct(ids)
    ensures Distinct(RowLabels(ids, rows, sat, kind))
  {
    var labels := RowLabels(ids, rows, sat, kind);
    forall i, j | 0 <= i < j < rows
      ensures labels[i] != labels[j]
    {
      if labels[i] == labels[j] {
        if IsLos(kind) {
          ScattererIdInjective(sat, kind, IntToString(ids[i]), IntToString(ids[j]));
          IntToStringInjective(ids[i], ids[j]);
        } else {
          ScattererIdInjective(sat, kind, NatToString(i), NatToString(j));
          NatToStringValue(i);
          NatToStringValue(j);
        }
      }
    }
  }

  function InfoColumns(kind: string): seq<string> {
    if IsLos(kind) then ["LAT", "LON", "HEIGHT", "COHER", "VEL"] else ["LAT", "LON", "VEL"]
  }

  /** Line-of-sight files carry 16 descriptive columns before the measurements, vertical
      files 3. */
  function ColumnsToSkip(kind: string): nat {
    if kind == "ver" then 3 else 16
  }

  /** The column labels after the descriptive ones: the measurement dates. */
  function MeasureLabels(columns: seq<string>, kind: string): seq<string> {
    var skip := ColumnsToSkip(kind);
    if skip < |columns| then columns[skip..] else []
  }

  /** `readSatelliteData`: `table` holds the file's columns (without the ID column, which
      `ids` holds, for line-of-sight files). The rows are renamed to scatterer ids; the info
      table takes the descriptive columns and a TYPE column; the measurement table takes
      every column after the descriptive ones, transposed so each `D<yyyymmdd>` label becomes
      a dated row. Any other data type leaves the info table undefined (NameError). */
  function ReadSatelliteData(table: Frame<nat, string>, ids: seq<int>, sat: string, kind: string)
    : (r: Result<(InfoTable, Frame<Date, string>)>)
    requires WellFormed(table) && (IsLos(kind) ==> |ids| == |table.index|)
    ensures r.Ok? ==> ValidInfo(r.value.0) && WellFormed(r.value.1)
  {
    var labels := RowLabels(ids, |table.index|, sat, kind);
    var renamed := Frame(labels, table.columns, table.cells);
    if !IsLos(kind) && kind != "ver" then Err(NameError("df_info"))
    else
      match SelectColumns(renamed, InfoColumns(kind))
      case Err(e) => Err(e)
      case Ok(selected) =>
        var info := InfoTable(selected, seq(|labels|, _ => kind));
        var measured := Transpose(DropFirstColumns(renamed, ColumnsToSkip(kind)));
        match ParseAll(SatelliteLabel, measured.index)
        case Err(e) => Err(e)
        case Ok(dates) => Ok((info, Frame(dates, measured.columns, measured.cells)))
  }

  /** The outcome of reading a file: a data type other than asc, des and ver fails with the
      undefined info table; otherwise the info table has one row per scatterer, named by
      scatterer id, its descriptive columns and the file's data type as TYPE; the measurement
      table has one row per date label after the skipped columns and one column per
      scatterer, and holds the file's values. */
  lemma ReadSatelliteDataSpec(table: Frame<nat, string>, ids: seq<int>, sat: string, kind: string, d: nat, s: nat)
    requires WellFormed(table) && (IsLos(kind) ==> |ids| == |table.index|)
    ensures !IsLos(kind) && kind != "ver" ==> ReadSatelliteData(table, ids, sat, kind) == Err(NameError("df_info"))
    ensures ReadSatelliteData(table, ids, sat, kind).Ok? <==>
              && (IsLos(kind) || kind == "ver")
              && (forall c :: c in InfoColumns(kind) ==> c in table.columns)
              && ParseAll(SatelliteLabel, MeasureLabels(table.columns, kind)).Ok?
    ensures ReadSatelliteData(table, ids, sat, kind).Ok? ==>
              var (info, data) := ReadSatelliteData(table, ids, sat, kind).value;
              var labels := RowLabels(ids, |table.index|, sat, kind);
              var skip := ColumnsToSkip(kind);
              && info.frame.index == labels && info.frame.columns == InfoColumns(kind)
              && (forall k :: 0 <= k < |info.kind| ==> info.kind[k] == kind)
              && data.columns == labels
              && data.index == ParseAll(SatelliteLabel, MeasureLabels(table.columns, kind)).value
              && (d < |data.index| && s < |labels| ==> data.cells[d][s] == table.cells[s][skip + d])
  {
    var r := ReadSatelliteData(table, ids, sat, kind);
    if r.Ok? {
      var labels := RowLabels(ids, |table.index|, sat, kind);
      var renamed := Frame(labels, table.columns, table.cells);
      var skip := ColumnsToSkip(kind);
      var dropped := DropFirstColumns(renamed, skip);
      if d < |r.value.1.index| && s < |labels| {
        TransposeCells(dropped, d, s);
      }
    }
  }

  /** `pd.concat([asc_info, des_info])`: the ascending scatterers followed by the descending
      ones, with their TYPE values. */
  function LosInfo(asc: InfoTable, des: InfoTable): (r: Result<InfoTable>)
    requires ValidInfo(asc) && ValidInfo(des)
    ensures r.Ok? ==> ValidInfo(r.value)
  {
    ConcatRowsOutcome(asc.frame, des.frame);
    match ConcatRows(asc.frame, des.frame)
    case Err(e) => Err(e)
    case Ok(f) => Ok(InfoTable(f, asc.kind + des.kind))
  }

  /** Stacking the info tables of a satellite's ascending and descending files always
      succeeds: both have the same columns, so the rows of the ascending file come first,
      typed "asc", then those of the descending file, typed "des". */
  lemma LosInfoSpec(ascTable: Frame<nat, string>, ascIds: seq<int>, desTable: Frame<nat, string>, desIds: seq<int>, sat: string)
    requires WellFormed(ascTable) && |ascIds| == |ascTable.index|
    requires WellFormed(desTable) && |desIds| == |desTable.index|
    requires ReadSatelliteData(ascTable, ascIds, sat, "asc").Ok?
    requires ReadSatelliteData(desTable, desIds, sat, "des").Ok?
    ensures var asc := ReadSatelliteData(ascTable, ascIds, sat, "asc").value.0;
            var des := ReadSatelliteData(desTable, desIds, sat, "des").value.0;
            var r := LosInfo(asc, des);
            && r.Ok?
            && r.value.frame.index == asc.frame.index + des.frame.index
            && r.value.frame.columns == InfoColumns("asc")
            && (forall k :: 0 <= k < |r.value.kind| ==>
                  r.value.kind[k] == if k < |asc.kind| then "asc" else "des")
  {
    var d, s := 0, 0;
    ReadSatelliteDataSpec(ascTable, ascIds, sat, "asc", d, s);
    ReadSatelliteDataSpec(desTable, desIds, sat, "des", d, s);
  }
}
