/** The baptistery ETL readers: the prism table with its (prism, axis) column keys, the
    extensimeter table with its joined date-time labels and its zero/missing row filter, and
    the registry of instrument positions. File reading is not modelled: each reader takes
    the cells the CSV reader would have produced. */
module BaptisteryTreatment {
  import opened Common
  import opened Frames

  // ---------------------------------------------------------------------------
  // Prisms
  // ---------------------------------------------------------------------------

  datatype Axis = X | Y | Z

  /** The axes every prism is measured along, in column order. */
  const Axes: seq<Axis> := [X, Y, Z]

  /** The header row without its empty cells. */
  function NonEmptyCells(header: seq<string>): (prisms: seq<string>)
  {
    if header == [] then []
    else (if header[0] == "" then [] else [header[0]]) + NonEmptyCells(header[1..])
  }

  /** Dropping the empty cells keeps every other cell, in header order. */
  lemma {:induction false} NonEmptyCellsSpec(header: seq<string>)
    ensures "" !in NonEmptyCells(header)
    ensures forall p :: p in NonEmptyCells(header) <==> p in header && p != ""
    ensures |NonEmptyCells(header)| <= |header|
    ensures "" !in header ==> NonEmptyCells(header) == header
  {
    if header != [] {
      NonEmptyCellsSpec(header[1..]);
      assert header == [header[0]] + header[1..];
    }
  }

  /** The column keys of the prism table: each non-empty header cell, three times, paired
      with the axes x, y, z. */
  method PrismColumnKeys(header: seq<string>) returns (keys: seq<(string, Axis)>)
    ensures var prisms := NonEmptyCells(header);
            && |keys| == 3 * |prisms|
            && forall j :: 0 <= j < |keys| ==> keys[j] == (prisms[j / 3], Axes[j % 3])
  {
    var prisms := NonEmptyCells(header);
    var directions := RepeatAxes(|prisms|);
    var tmp: seq<string> := [];
    for i := 0 to |prisms|
      invariant |tmp| == 3 * i
      invariant forall j :: 0 <= j < |tmp| ==> tmp[j] == prisms[j / 3]
    {
      tmp := tmp + [prisms[i], prisms[i], prisms[i]];
    }
    keys := seq(|tmp|, j requires 0 <= j < |tmp| => (tmp[j], directions[j]));
  }

  /** `['x', 'y', 'z'] * n` */
  function RepeatAxes(n: nat): (r: seq<Axis>)
    ensures |r| == 3 * n
    ensures forall j :: 0 <= j < |r| ==> r[j] == Axes[j % 3]
  {
    if n == 0 then [] else
      var r := RepeatAxes(n - 1) + Axes;
      assert forall j :: 3 * (n - 1) <= j < |r| ==> j % 3 == j - 3 * (n - 1);
      r
  }

  /** Distinct prism names give distinct column keys: the table can be addressed by key. */
  lemma PrismKeysDistinct(header: seq<string>, keys: seq<(string, Axis)>)
    requires var prisms := NonEmptyCells(header);
             && |keys| == 3 * |prisms|
             && forall j :: 0 <= j < |keys| ==> keys[j] == (prisms[j / 3], Axes[j % 3])
    requires Distinct(NonEmptyCells(header))
    ensures Distinct(keys)
  {
    var prisms := NonEmptyCells(header);
    forall i, j | 0 <= i < j < |keys|
      ensures keys[i] != keys[j]
    {
      if i / 3 == j / 3 {
        assert i % 3 != j % 3;
        assert Axes[i % 3] != Axes[j % 3];
      } else {
        assert prisms[i / 3] != prisms[j / 3];
      }
    }
  }

  /** The prism table: the values of the data rows laid out under the column keys. Building
      the frame fails when there is no prism at all (the key array then has no rows and pandas
      refuses it as column labels) or when the data width is not three times the number of
      prisms. */
  method ReadPrismData<R>(header: seq<string>, data: Frame<R, int>)
    returns (r: Result<Frame<R, (string, Axis)>>)
    requires WellFormed(data)
    ensures r.Ok? <==> |NonEmptyCells(header)| > 0 && |data.columns| == 3 * |NonEmptyCells(header)|
    ensures r.Err? ==> r.error.ValueError?
    ensures r.Ok? ==>
      var prisms := NonEmptyCells(header);
      && WellFormed(r.value)
      && r.value.index == data.index && r.value.cells == data.cells
      && |r.value.columns| == 3 * |prisms|
      && forall j :: 0 <= j < |r.value.columns| ==> r.value.columns[j] == (prisms[j / 3], Axes[j % 3])
  {
    var keys := PrismColumnKeys(header);
    if |keys| == 0 {
      return Err(ValueError("Index data must be 1-dimensional"));
    }
    if |data.columns| != |keys| {
      return Err(ValueError("Shape of passed values does not match the indices"));
    }
    r := Ok(Frame(data.index, keys, data.cells));
  }

  // ---------------------------------------------------------------------------
  // Extensimeters
  // ---------------------------------------------------------------------------

  /** A data row of the extensimeter file: its date and time fields, then the readings. */
  datatype ExtensimeterRow = ExtensimeterRow(date: string, time: string, values: seq<Cell>)

  /** The row label: the date and time fields joined by a space. */
  function TimestampLabel(row: ExtensimeterRow): string {
    row.date + " " + row.time
  }

  /** The label splits back into the date and the time when neither holds a space. */
  lemma TimestampLabelSplits(row: ExtensimeterRow)
    requires ' ' !in row.date && ' ' !in row.time
    ensures Split(TimestampLabel(row), ' ') == [row.date, row.time]
  {
    SplitJoin([row.date, row.time], ' ');
    assert Join([row.time], ' ') == row.time;
    assert Join([row.date, row.time], ' ') == TimestampLabel(row);
  }

  /** The extensimeter table before filtering: one row per file row, in file order, labelled
      by its date and time, with the readings under the columns after the first two. */
  function ExtensimeterTable<C>(columns: seq<C>, rows: seq<ExtensimeterRow>): (f: Frame<string, C>)
    requires |columns| >= 2
    requires forall i :: 0 <= i < |rows| ==> |rows[i].values| == |columns| - 2
    ensures WellFormed(f)
  {
    Frame(seq(|rows|, i requires 0 <= i < |rows| => TimestampLabel(rows[i])),
          columns[2..],
          seq(|rows|, i requires 0 <= i < |rows| => rows[i].values))
  }

  /** A row survives `replace(0.0, nan).dropna()` when every reading is present and non-zero. */
  predicate CleanRow(cells: seq<Cell>) {
    forall k :: 0 <= k < |cells| ==> cells[k].Some? && cells[k].value != 0.0
  }

  function CleanMask<R, C>(f: Frame<R, C>): (mask: seq<bool>)
    requires WellFormed(f)
    ensures |mask| == |f.index|
  {
    seq(|f.index|, i requires 0 <= i < |f.index| => CleanRow(f.cells[i]))
  }

  /** `replace(0.0, nan).dropna()`: a row with a zero reading in any column, or a missing
      one, is dropped whole. The rows kept have no zero, so the replacement leaves them as
      they were. */
  function DropZeroOrMissing<R, C>(f: Frame<R, C>): (g: Frame<R, C>)
    requires WellFormed(f)
    ensures WellFormed(g) && g.columns == f.columns
  {
    SelectRows(f, CleanMask(f))
  }

  /** The rows kept are exactly the clean ones, unchanged and in file order, and the
      result holds no zero and no missing reading. */
  lemma DropZeroOrMissingSpec<R, C>(f: Frame<R, C>)
    requires WellFormed(f)
    ensures var g := DropZeroOrMissing(f);
            var ps := TruePositions(CleanMask(f));
            && |g.index| == |ps|
            && (forall k :: 0 <= k < |ps| ==> g.index[k] == f.index[ps[k]] && g.cells[k] == f.cells[ps[k]])
            && (forall k, l :: 0 <= k < l < |ps| ==> ps[k] < ps[l])
            && (forall p :: p in ps <==> 0 <= p < |f.index| && CleanRow(f.cells[p]))
            && (forall k :: 0 <= k < |g.cells| ==> CleanRow(g.cells[k]))
  {
    SelectRowsSpec(f, CleanMask(f));
    var ps := TruePositions(CleanMask(f));
    forall k | 0 <= k < |ps| ensures CleanRow(f.cells[ps[k]]) {
      assert ps[k] in ps;
    }
  }

  /** `readExtensimeterData`: the joined table with the unclean rows dropped. */
  function ReadExtensimeterData<C>(columns: seq<C>, rows: seq<ExtensimeterRow>): (f: Frame<string, C>)
    requires |columns| >= 2
    requires forall i :: 0 <= i < |rows| ==> |rows[i].values| == |columns| - 2
    ensures WellFormed(f) && f.columns == columns[2..]
  {
    DropZeroOrMissing(ExtensimeterTable(columns, rows))
  }

  /** Each surviving row is a file row whose readings are all present and non-zero, labelled
      by that row's date and time; every such file row survives, and file order is kept. */
  lemma ReadExtensimeterDataSpec<C>(columns: seq<C>, rows: seq<ExtensimeterRow>)
    requires |columns| >= 2
    requires forall i :: 0 <= i < |rows| ==> |rows[i].values| == |columns| - 2
    ensures var f := ReadExtensimeterData(columns, rows);
            var ps := TruePositions(CleanMask(ExtensimeterTable(columns, rows)));
            && |f.index| == |ps|
            && (forall k :: 0 <= k < |ps| ==>
                  f.index[k] == rows[ps[k]].date + " " + rows[ps[k]].time
                  && f.cells[k] == rows[ps[k]].values)
            && (forall k, l :: 0 <= k < l < |ps| ==> ps[k] < ps[l])
            && (forall p :: p in ps <==> 0 <= p < |rows| && CleanRow(rows[p].values))
  {
    DropZeroOrMissingSpec(ExtensimeterTable(columns, rows));
  }

  // ---------------------------------------------------------------------------
  // Instrument positions
  // ---------------------------------------------------------------------------

  /** The `angle`, `radius` and `z` cells of a position file row. */
  datatype Coord = Coord(angle: Cell, radius: Cell, z: Cell)

  /** A row of a position table once its `type` column is set. */
  datatype PositionRow = PositionRow(id: string, pos: Coord, kind: string)

  const PrismTag := "prism"
  const LevelTag := "level"
  const CrackTag := "crack"

  /** One position file read with the id as index: rows in file order, and a `type` column
      that is absent until it is assigned. */
  class PositionTable {
    var ids: seq<string>
    var coords: seq<Coord>
    var kinds: Option<seq<string>>

    predicate Valid()
      reads this
    {
      |coords| == |ids| && (kinds.Some? ==> |kinds.value| == |ids|)
    }

    constructor (rows: seq<(string, Coord)>)
      ensures Valid() && kinds == None
      ensures ids == seq(|rows|, i requires 0 <= i < |rows| => rows[i].0)
      ensures coords == seq(|rows|, i requires 0 <= i < |rows| => rows[i].1)
    {
      ids := seq(|rows|, i requires 0 <= i < |rows| => rows[i].0);
      coords := seq(|rows|, i requires 0 <= i < |rows| => rows[i].1);
      kinds := None;
    }

    /** `table['type'] = [tag] * len(table)`: the column is set (or replaced) in place;
        nothing else changes. */
    method SetType(tag: string)
      requires Valid()
      modifies this
      ensures Valid()
      ensures ids == old(ids) && coords == old(coords)
      ensures kinds == Some(seq(|ids|, _ => tag))
    {
      kinds := Some(seq(|ids|, _ => tag));
    }

    /** The table's rows with their type; a row without a type column has none to show. */
    function Rows(): (rows: seq<PositionRow>)
      reads this
      requires Valid() && kinds.Some?
      ensures |rows| == |ids|
    {
      var ids, coords, kinds := ids, coords, kinds.value;
      seq(|ids|, i requires 0 <= i < |ids| => PositionRow(ids[i], coords[i], kinds[i]))
    }
  }

  function Tagged(rows: seq<(string, Coord)>, tag: string): (t: seq<PositionRow>)
    ensures |t| == |rows|
  {
    seq(|rows|, i requires 0 <= i < |rows| => PositionRow(rows[i].0, rows[i].1, tag))
  }

  /** The combined registry: prisms, then levelling benchmarks, then extensimeters. */
  function Registry(prisms: seq<(string, Coord)>, levels: seq<(string, Coord)>, cracks: seq<(string, Coord)>)
    : seq<PositionRow>
  {
    Tagged(prisms, PrismTag) + Tagged(levels, LevelTag) + Tagged(cracks, CrackTag)
  }

  /** `readSensorPositions`: tags each table with its instrument type in place, then
      concatenates the three (their columns agree, so the rows are simply stacked). */
  method ReadSensorPositions(prismRows: seq<(string, Coord)>, levelRows: seq<(string, Coord)>,
                             crackRows: seq<(string, Coord)>)
    returns (prisms: PositionTable, levels: PositionTable, cracks: PositionTable, positions: seq<PositionRow>)
    ensures fresh(prisms) && fresh(levels) && fresh(cracks)
    ensures prisms.Valid() && levels.Valid() && cracks.Valid()
    ensures prisms.kinds.Some? && levels.kinds.Some? && cracks.kinds.Some?
    ensures prisms.Rows() == Tagged(prismRows, PrismTag)
    ensures levels.Rows() == Tagged(levelRows, LevelTag)
    ensures cracks.Rows() == Tagged(crackRows, CrackTag)
    ensures positions == Registry(prismRows, levelRows, crackRows)
  {
    prisms := new PositionTable(prismRows);
    prisms.SetType(PrismTag);
    assert prisms.Rows() == Tagged(prismRows, PrismTag);
    levels := new PositionTable(levelRows);
    levels.SetType(LevelTag);
    assert levels.Rows() == Tagged(levelRows, LevelTag);
    cracks := new PositionTable(crackRows);
    cracks.SetType(CrackTag);
    assert cracks.Rows() == Tagged(crackRows, CrackTag);
    positions := prisms.Rows() + levels.Rows() + cracks.Rows();
  }

  /** Every row of the registry carries the tag of the table it came from, with its id and
      position unchanged, each table's rows in file order; the row count is the sum. */
  lemma RegistrySpec(prisms: seq<(string, Coord)>, levels: seq<(string, Coord)>, cracks: seq<(string, Coord)>)
    ensures var reg := Registry(prisms, levels, cracks);
            var a, b := |prisms|, |prisms| + |levels|;
            && |reg| == |prisms| + |levels| + |cracks|
            && (forall i :: 0 <= i < a ==> reg[i] == PositionRow(prisms[i].0, prisms[i].1, PrismTag))
            && (forall i :: a <= i < b ==> reg[i] == PositionRow(levels[i - a].0, levels[i - a].1, LevelTag))
            && (forall i :: b <= i < |reg| ==> reg[i] == PositionRow(cracks[i - b].0, cracks[i - b].1, CrackTag))
  {
  }

  /** Duplicate ids are not rejected: an id present in two source tables appears twice. */
  lemma RegistryKeepsDuplicates(prisms: seq<(string, Coord)>, levels: seq<(string, Coord)>,
                                cracks: seq<(string, Coord)>, i: nat, j: nat)
    requires i < |prisms| && j < |levels| && prisms[i].0 == levels[j].0
    ensures var reg := Registry(prisms, levels, cracks);
            reg[i].id == reg[|prisms| + j].id && i != |prisms| + j
  {
    RegistrySpec(prisms, levels, cracks);
  }
}
