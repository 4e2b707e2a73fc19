/** The computations behind the Piazza dei Miracoli square page: the data-availability
    Gantt chart, the map of benchmarks and satellite scatterers, and the displacement
    plots of selected points. Figures, colours and layouts are not modelled; what is kept
    is which rows, in which order, end up in which trace or figure. */
module SquarePages {
  import opened Common
  import opened Frames
  import opened Dates
  import opened SquareTreatment

  // ---------------------------------------------------------------------------
  // figureGantt
  // ---------------------------------------------------------------------------

  /** Chronological order, ties allowed. */
  predicate DateLe(a: Date, b: Date) {
    !Before(b, a)
  }

  predicate Ascending(s: seq<Date>) {
    forall i, j :: 0 <= i < j < |s| ==> DateLe(s[i], s[j])
  }

  lemma DateLeTotal(a: Date, b: Date)
    ensures DateLe(a, b) || DateLe(b, a)
  {
  }

  lemma DateLeTrans(a: Date, b: Date, c: Date)
    requires DateLe(a, b) && DateLe(b, c)
    ensures DateLe(a, c)
  {
  }

  /** A date no later than every element of an ascending sequence may go in front. */
  lemma AscendingCons(x: Date, s: seq<Date>)
    requires Ascending(s) && forall i :: 0 <= i < |s| ==> DateLe(x, s[i])
    ensures Ascending([x] + s)
  {
    var t := [x] + s;
    forall i, j | 0 <= i < j < |t| ensures DateLe(t[i], t[j]) {
      if i > 0 {
        assert t[i] == s[i - 1] && t[j] == s[j - 1];
      } else {
        assert t[j] == s[j - 1];
      }
    }
  }

  /** Puts `d` into an ascending sequence. */
  function Insert(d: Date, s: seq<Date>): (r: seq<Date>)
    requires Ascending(s)
    ensures multiset(r) == multiset(s) + multiset{d}
    ensures Ascending(r)
  {
    if s == [] then [d]
    else if DateLe(d, s[0]) then
      forall i | 0 <= i < |s| ensures DateLe(d, s[i]) {
        if i > 0 {
          DateLeTrans(d, s[0], s[i]);
        }
      }
      AscendingCons(d, s);
      [d] + s
    else
      var rest := Insert(d, s[1..]);
      assert s == [s[0]] + s[1..];
      forall i | 0 <= i < |rest| ensures DateLe(s[0], rest[i]) {
        assert rest[i] in multiset(rest);
        if rest[i] != d {
          assert rest[i] in multiset(s[1..]);
          var j :| 0 <= j < |s[1..]| && s[1..][j] == rest[i];
          assert s[j + 1] == rest[i];
        } else {
          DateLeTotal(d, s[0]);
        }
      }
      AscendingCons(s[0], rest);
      [s[0]] + rest
  }

  /** `df.sort_index().index`: the row labels in ascending order. Dates form a total
      order, so the result does not depend on the sorting algorithm. */
  function SortIndex(s: seq<Date>): (r: seq<Date>)
    ensures Ascending(r) && multiset(r) == multiset(s)
  {
    if s == [] then [] else
      assert s == [s[0]] + s[1..];
      Insert(s[0], SortIndex(s[1..]))
  }

  /** The names the Gantt chart knows, each with the frame whose index it plots; the ERS
      entry is the ascending frame stacked on the descending one. */
  function WhichDf(square: Frame<Date, string>, ersAsc: Frame<Date, string>, ersDesc: Frame<Date, string>,
                   env: Frame<Date, string>, sen: Frame<Date, string>, csk: Frame<Date, string>)
    : (r: Result<map<string, seq<Date>>>)
    requires WellFormed(ersAsc) && WellFormed(ersDesc)
  {
    match ConcatRows(ersAsc, ersDesc)
    case Err(e) => Err(e)
    case Ok(ers) =>
      Ok(map["Square levelling" := square.index, "ERS" := ers.index, "ENVISAT" := env.index,
             "Sentinel-1" := sen.index, "COSMO-SkyMed" := csk.index])
  }

  /** One marker row per requested name, in the order requested, each holding the sorted
      index of its frame; an unknown name is a KeyError. */
  function GanttRows(which: seq<string>, indices: map<string, seq<Date>>): (r: Result<seq<(string, seq<Date>)>>)
    ensures r.Ok? <==> forall k :: 0 <= k < |which| ==> which[k] in indices
    ensures r.Ok? ==> |r.value| == |which|
    ensures r.Err? ==> exists k :: 0 <= k < |which| && which[k] !in indices && r.error == KeyError(which[k])
  {
    if which == [] then Ok([])
    else if which[0] !in indices then Err(KeyError(which[0]))
    else
      match GanttRows(which[1..], indices)
      case Err(e) => Err(e)
      case Ok(rest) => Ok([(which[0], SortIndex(indices[which[0]]))] + rest)
  }

  function Gantt(which: seq<string>, square: Frame<Date, string>, ersAsc: Frame<Date, string>,
                 ersDesc: Frame<Date, string>, env: Frame<Date, string>, sen: Frame<Date, string>,
                 csk: Frame<Date, string>): (r: Result<seq<(string, seq<Date>)>>)
    requires WellFormed(ersAsc) && WellFormed(ersDesc)
    ensures r.Ok? ==> |r.value| == |which|
  {
    match WhichDf(square, ersAsc, ersDesc, env, sen, csk)
    case Err(e) => Err(e)
    case Ok(indices) => GanttRows(which, indices)
  }

  /** Row k of the chart is named `which[k]` and holds every date of that source exactly
      as often as its index does, in ascending order; for ERS these are the dates of the
      ascending file together with those of the descending file. */
  lemma {:induction false} GanttRowsSpec(which: seq<string>, indices: map<string, seq<Date>>, k: nat)
    requires GanttRows(which, indices).Ok? && k < |which|
    ensures var row := GanttRows(which, indices).value[k];
            && row.0 == which[k]
            && Ascending(row.1)
            && multiset(row.1) == multiset(indices[which[k]])
  {
    if k > 0 {
      GanttRowsSpec(which[1..], indices, k - 1);
    }
  }

  lemma GanttSpec(which: seq<string>, square: Frame<Date, string>, ersAsc: Frame<Date, string>,
                  ersDesc: Frame<Date, string>, env: Frame<Date, string>, sen: Frame<Date, string>,
                  csk: Frame<Date, string>, k: nat)
    requires WellFormed(ersAsc) && WellFormed(ersDesc)
    requires Distinct(ersAsc.columns) && Distinct(ersDesc.columns)
    ensures var r := Gantt(which, square, ersAsc, ersDesc, env, sen, csk);
            r.Ok? <==> forall w :: w in which ==>
                         w in {"Square levelling", "ERS", "ENVISAT", "Sentinel-1", "COSMO-SkyMed"}
    ensures var r := Gantt(which, square, ersAsc, ersDesc, env, sen, csk);
            r.Ok? && k < |which| && which[k] == "ERS" ==>
              && Ascending(r.value[k].1)
              && multiset(r.value[k].1) == multiset(ersAsc.index) + multiset(ersDesc.index)
  {
    ConcatRowsOutcome(ersAsc, ersDesc);
    var r := Gantt(which, square, ersAsc, ersDesc, env, sen, csk);
    var indices := WhichDf(square, ersAsc, ersDesc, env, sen, csk).value;
    assert indices.Keys == {"Square levelling", "ERS", "ENVISAT", "Sentinel-1", "COSMO-SkyMed"};
    assert r.Ok? <==> forall w :: w in which ==> w in indices by {
      if forall w :: w in which ==> w in indices {
        assert forall j :: 0 <= j < |which| ==> which[j] in indices;
      }
    }
    if r.Ok? && k < |which| && which[k] == "ERS" {
      GanttRowsSpec(which, indices, k);
    }
  }

  // ---------------------------------------------------------------------------
  // Tables as rows, and boolean row filters
  // ---------------------------------------------------------------------------

  /** One table row: its label, its cells (aligned with the table's columns) and a tag
      carried alongside (the scatterer's TYPE, or nothing for benchmarks). */
  datatype Row<K> = Row(id: string, cells: seq<Cell>, tag: K)

  function Rows<K>(f: Frame<string, string>, tags: seq<K>): (rows: seq<Row<K>>)
    requires WellFormed(f) && |tags| == |f.index|
    ensures |rows| == |f.index|
    ensures forall i :: 0 <= i < |rows| ==> |rows[i].cells| == |f.columns|
  {
    seq(|f.index|, i requires 0 <= i < |f.index| => Row(f.index[i], f.cells[i], tags[i]))
  }

  /** A comparison of one cell with a constant, as in `d[d['COHER'] >= x]`. */
  datatype Bound = AtLeast(x: real) | AtMost(x: real) | EqualTo(x: real)

  /** A comparison applied to the cell at column position `col`. */
  datatype Test = Test(col: nat, bound: Bound)

  /** NaN fails every comparison. */
  predicate Passes(c: Cell, b: Bound) {
    match c
    case None => false
    case Some(v) =>
      match b
      case AtLeast(x) => v >= x
      case AtMost(x) => v <= x
      case EqualTo(x) => v == x
  }

  predicate Holds<K>(r: Row<K>, t: Test) {
    t.col < |r.cells| && Passes(r.cells[t.col], t.bound)
  }

  predicate PassesAll<K>(r: Row<K>, tests: seq<Test>) {
    forall t :: t in tests ==> Holds(r, t)
  }

  /** `df[mask]` for the mask of rows passing every test: those rows, in order. */
  function Keep<K>(rows: seq<Row<K>>, tests: seq<Test>): (kept: seq<Row<K>>)
    ensures |kept| <= |rows|
  {
    if rows == [] then []
    else (if PassesAll(rows[0], tests) then [rows[0]] else []) + Keep(rows[1..], tests)
  }

  /** A row survives exactly when it passes every test. */
  lemma {:induction false} KeepMember<K>(rows: seq<Row<K>>, tests: seq<Test>, x: Row<K>)
    ensures x in Keep(rows, tests) <==> x in rows && PassesAll(x, tests)
  {
    if rows != [] {
      KeepMember(rows[1..], tests, x);
      assert rows == [rows[0]] + rows[1..];
    }
  }

  /** Filtering keeps the order: it distributes over concatenation. */
  lemma {:induction false} KeepAppend<K>(a: seq<Row<K>>, b: seq<Row<K>>, tests: seq<Test>)
    ensures Keep(a + b, tests) == Keep(a, tests) + Keep(b, tests)
  {
    if a != [] {
      var head := if PassesAll(a[0], tests) then [a[0]] else [];
      assert (a + b)[0] == a[0] && (a + b)[1..] == a[1..] + b;
      assert Keep(a + b, tests) == head + Keep(a[1..] + b, tests);
      KeepAppend(a[1..], b, tests);
      assert head + (Keep(a[1..], tests) + Keep(b, tests)) == (head + Keep(a[1..], tests)) + Keep(b, tests);
    } else {
      assert a + b == b;
    }
  }

  /** Filtering twice is filtering once with both sets of tests. */
  lemma {:induction false} KeepTwice<K>(rows: seq<Row<K>>, tests: seq<Test>, more: seq<Test>)
    ensures Keep(Keep(rows, tests), more) == Keep(rows, tests + more)
  {
    if rows != [] {
      KeepTwice(rows[1..], tests, more);
      var r := rows[0];
      assert PassesAll(r, tests + more) <==> PassesAll(r, tests) && PassesAll(r, more);
      var head := if PassesAll(r, tests) then [r] else [];
      KeepAppend(head, Keep(rows[1..], tests), more);
    }
  }

  /** Two single tests that no row passes or fails together split the rows exactly. */
  lemma {:induction false} KeepPartition<K>(rows: seq<Row<K>>, t: Test, u: Test)
    requires forall i :: 0 <= i < |rows| ==> (Holds(rows[i], t) <==> !Holds(rows[i], u))
    ensures multiset(Keep(rows, [t])) + multiset(Keep(rows, [u])) == multiset(rows)
  {
    if rows != [] {
      KeepPartition(rows[1..], t, u);
      PassesOne(rows[0], t);
      PassesOne(rows[0], u);
      assert rows == [rows[0]] + rows[1..];
    }
  }

  lemma PassesOne<K>(r: Row<K>, t: Test)
    ensures PassesAll(r, [t]) <==> Holds(r, t)
  {
  }

  /** The value of a row under a column the table has. */
  function Value<K>(r: Row<K>, columns: seq<string>, name: string): Cell
    requires name in columns && |r.cells| == |columns|
  {
    r.cells[FirstIndex(columns, name)]
  }

  // ---------------------------------------------------------------------------
  // map_square: coherence and height window
  // ---------------------------------------------------------------------------

  function Window(c: nat, h: nat, crange: (real, real), hrange: (real, real)): seq<Test> {
    [Test(c, AtLeast(crange.0)), Test(c, AtMost(crange.1)),
     Test(h, AtLeast(hrange.0)), Test(h, AtMost(hrange.1))]
  }

  /** The four successive filters on COHER and HEIGHT; a table without one of these
      columns raises a KeyError at the first filter that reads it. */
  function Visible(t: InfoTable, crange: (real, real), hrange: (real, real)): (r: Result<seq<Row<string>>>)
    requires ValidInfo(t)
  {
    var cols := t.frame.columns;
    if "COHER" !in cols then Err(KeyError("COHER"))
    else if "HEIGHT" !in cols then Err(KeyError("HEIGHT"))
    else
      var c, h := FirstIndex(cols, "COHER"), FirstIndex(cols, "HEIGHT");
      var d0 := Rows(t.frame, t.kind);
      var d1 := Keep(d0, [Test(c, AtLeast(crange.0))]);
      var d2 := Keep(d1, [Test(c, AtMost(crange.1))]);
      var d3 := Keep(d2, [Test(h, AtLeast(hrange.0))]);
      Ok(Keep(d3, [Test(h, AtMost(hrange.1))]))
  }

  /** Whether a scatterer lies inside both closed ranges. */
  predicate Shown(x: Row<string>, cols: seq<string>, crange: (real, real), hrange: (real, real))
    requires "COHER" in cols && "HEIGHT" in cols && |x.cells| == |cols|
  {
    var coher, height := Value(x, cols, "COHER"), Value(x, cols, "HEIGHT");
    && coher.Some? && crange.0 <= coher.value <= crange.1
    && height.Some? && hrange.0 <= height.value <= hrange.1
  }

  /** The four filters act as one filter on the whole window. */
  lemma VisibleIsWindow(t: InfoTable, crange: (real, real), hrange: (real, real))
    requires ValidInfo(t) && "COHER" in t.frame.columns && "HEIGHT" in t.frame.columns
    ensures var cols := t.frame.columns;
            Visible(t, crange, hrange).value
              == Keep(Rows(t.frame, t.kind), Window(FirstIndex(cols, "COHER"), FirstIndex(cols, "HEIGHT"), crange, hrange))
  {
    var cols := t.frame.columns;
    var c, h := FirstIndex(cols, "COHER"), FirstIndex(cols, "HEIGHT");
    var d0 := Rows(t.frame, t.kind);
    var t1, t2, t3, t4 := Test(c, AtLeast(crange.0)), Test(c, AtMost(crange.1)),
                          Test(h, AtLeast(hrange.0)), Test(h, AtMost(hrange.1));
    KeepTwice(d0, [t1], [t2]);
    assert [t1] + [t2] == [t1, t2];
    KeepTwice(d0, [t1, t2], [t3]);
    assert [t1, t2] + [t3] == [t1, t2, t3];
    KeepTwice(d0, [t1, t2, t3], [t4]);
    assert [t1, t2, t3] + [t4] == Window(c, h, crange, hrange);
  }

  /** Passing the window's four tests is lying inside both ranges. */
  lemma WindowShown(x: Row<string>, cols: seq<string>, crange: (real, real), hrange: (real, real))
    requires "COHER" in cols && "HEIGHT" in cols && |x.cells| == |cols|
    ensures var w := Window(FirstIndex(cols, "COHER"), FirstIndex(cols, "HEIGHT"), crange, hrange);
            PassesAll(x, w) <==> Shown(x, cols, crange, hrange)
  {
    var c, h := FirstIndex(cols, "COHER"), FirstIndex(cols, "HEIGHT");
    var w := Window(c, h, crange, hrange);
    if PassesAll(x, w) {
      assert Holds(x, w[0]) && Holds(x, w[1]) && Holds(x, w[2]) && Holds(x, w[3]);
    }
  }

  /** The filters succeed exactly when both columns exist. They then act as one filter
      on the whole window, keeping the table's order, and a scatterer is shown exactly
      when crange.0 <= COHER <= crange.1 and hrange.0 <= HEIGHT <= hrange.1 (NaN never). */
  lemma VisibleSpec(t: InfoTable, crange: (real, real), hrange: (real, real), x: Row<string>)
    requires ValidInfo(t)
    ensures Visible(t, crange, hrange).Ok? <==> "COHER" in t.frame.columns && "HEIGHT" in t.frame.columns
    ensures Visible(t, crange, hrange).Ok? ==>
              var cols := t.frame.columns;
              var rows := Rows(t.frame, t.kind);
              && Visible(t, crange, hrange).value
                   == Keep(rows, Window(FirstIndex(cols, "COHER"), FirstIndex(cols, "HEIGHT"), crange, hrange))
              && (x in Visible(t, crange, hrange).value <==>
                    x in rows && |x.cells| == |cols| && Shown(x, cols, crange, hrange))
  {
    var cols := t.frame.columns;
    if "COHER" in cols && "HEIGHT" in cols {
      var rows := Rows(t.frame, t.kind);
      var w := Window(FirstIndex(cols, "COHER"), FirstIndex(cols, "HEIGHT"), crange, hrange);
      VisibleIsWindow(t, crange, hrange);
      KeepMember(rows, w, x);
      if x in rows {
        var i :| 0 <= i < |rows| && rows[i] == x;
        WindowShown(x, cols, crange, hrange);
      }
    }
  }

  // ---------------------------------------------------------------------------
  // map_square: TYPE split of the scatterers
  // ---------------------------------------------------------------------------

  /** `d[d['TYPE'] == kind]` */
  function OfKind(rows: seq<Row<string>>, kind: string): (r: seq<Row<string>>)
    ensures |r| <= |rows|
  {
    if rows == [] then []
    else (if rows[0].tag == kind then [rows[0]] else []) + OfKind(rows[1..], kind)
  }

  lemma {:induction false} OfKindMember(rows: seq<Row<string>>, kind: string, x: Row<string>)
    ensures x in OfKind(rows, kind) <==> x in rows && x.tag == kind
  {
    if rows != [] {
      OfKindMember(rows[1..], kind, x);
      assert rows == [rows[0]] + rows[1..];
    }
  }

  /** When every TYPE is "asc" or "des" the two traces share the rows out exactly: each
      row lands in one of them, as often as it occurs. */
  lemma {:induction false} KindSplitExact(rows: seq<Row<string>>)
    requires forall i :: 0 <= i < |rows| ==> IsLos(rows[i].tag)
    ensures multiset(OfKind(rows, "asc")) + multiset(OfKind(rows, "des")) == multiset(rows)
  {
    if rows != [] {
      assert rows == [rows[0]] + rows[1..];
      KindSplitExact(rows[1..]);
    }
  }

  // ---------------------------------------------------------------------------
  // map_square and map_square_vertical: benchmarks by reliability
  // ---------------------------------------------------------------------------

  function BenchmarkRows(pos: Frame<string, string>): (rows: seq<Row<()>>)
    requires WellFormed(pos)
    ensures |rows| == |pos.index|
  {
    Rows(pos, seq(|pos.index|, _ => ()))
  }

  /** `pos_square[pos_square['rel'] == rel]`; a table without a `rel` column raises a
      KeyError. */
  function WithRel(pos: Frame<string, string>, rel: real): (r: Result<seq<Row<()>>>)
    requires WellFormed(pos)
    ensures r.Ok? <==> "rel" in pos.columns
  {
    if "rel" !in pos.columns then Err(KeyError("rel"))
    else Ok(Keep(BenchmarkRows(pos), [Test(FirstIndex(pos.columns, "rel"), EqualTo(rel))]))
  }

  /** A row passes `rel == v` exactly when its rel cell holds v. */
  lemma RelTest(x: Row<()>, k: nat, v: real)
    requires k < |x.cells|
    ensures PassesAll(x, [Test(k, EqualTo(v))]) <==> x.cells[k] == Some(v)
  {
    assert Test(k, EqualTo(v)) in [Test(k, EqualTo(v))];
  }

  /** The reliable trace holds the benchmarks whose rel is 1, the unreliable one those
      whose rel is 0, each in table order. When every rel is 0 or 1 the two traces share
      the benchmarks out exactly; a benchmark with any other rel, or NaN, is in neither. */
  lemma RelSplit(pos: Frame<string, string>, x: Row<()>)
    requires WellFormed(pos) && "rel" in pos.columns
    ensures var rows := BenchmarkRows(pos);
            && (x in WithRel(pos, 1.0).value <==> x in rows && Value(x, pos.columns, "rel") == Some(1.0))
            && (x in WithRel(pos, 0.0).value <==> x in rows && Value(x, pos.columns, "rel") == Some(0.0))
    ensures var rows := BenchmarkRows(pos);
            (forall i :: 0 <= i < |rows| ==> Value(rows[i], pos.columns, "rel") in {Some(0.0), Some(1.0)}) ==>
              multiset(WithRel(pos, 1.0).value) + multiset(WithRel(pos, 0.0).value) == multiset(rows)
  {
    var rows := BenchmarkRows(pos);
    var k := FirstIndex(pos.columns, "rel");
    KeepMember(rows, [Test(k, EqualTo(1.0))], x);
    KeepMember(rows, [Test(k, EqualTo(0.0))], x);
    if x in rows {
      var i :| 0 <= i < |rows| && rows[i] == x;
      RelTest(x, k, 1.0);
      RelTest(x, k, 0.0);
    }
    if forall i :: 0 <= i < |rows| ==> Value(rows[i], pos.columns, "rel") in {Some(0.0), Some(1.0)} {
      forall i | 0 <= i < |rows|
        ensures Holds(rows[i], Test(k, EqualTo(1.0))) <==> !Holds(rows[i], Test(k, EqualTo(0.0)))
      {
        assert Value(rows[i], pos.columns, "rel") == rows[i].cells[k];
      }
      KeepPartition(rows, Test(k, EqualTo(1.0)), Test(k, EqualTo(0.0)));
    }
  }

  // ---------------------------------------------------------------------------
  // map_square: the traces
  // ---------------------------------------------------------------------------

  /** A plotted point: its hover label and coordinates. */
  datatype Point = Point(id: string, lat: Cell, lon: Cell)

  /** The lone point at (0, 0) drawn when nothing is selected, or a named marker trace. */
  datatype Trace = Placeholder | Markers(name: string, points: seq<Point>)

  function Points<K>(rows: seq<Row<K>>, la: nat, lo: nat): (ps: seq<Point>)
    requires forall i :: 0 <= i < |rows| ==> la < |rows[i].cells| && lo < |rows[i].cells|
    ensures |ps| == |rows|
  {
    seq(|rows|, i requires 0 <= i < |rows| => Point(rows[i].id, rows[i].cells[la], rows[i].cells[lo]))
  }

  /** The trace of the benchmarks with a given rel; `rel`, then `lat`, then `lon` must be
      columns. */
  function BenchmarkTrace(pos: Frame<string, string>, rel: real, name: string): (r: Result<Trace>)
    requires WellFormed(pos)
  {
    match WithRel(pos, rel)
    case Err(e) => Err(e)
    case Ok(rows) =>
      if "lat" !in pos.columns then Err(KeyError("lat"))
      else if "lon" !in pos.columns then Err(KeyError("lon"))
      else
        forall x | x in rows ensures x in BenchmarkRows(pos) {
          KeepMember(BenchmarkRows(pos), [Test(FirstIndex(pos.columns, "rel"), EqualTo(rel))], x);
        }
        assert forall i :: 0 <= i < |rows| ==> rows[i] in BenchmarkRows(pos);
        Ok(Markers(name, Points(rows, FirstIndex(pos.columns, "lat"), FirstIndex(pos.columns, "lon"))))
  }

  /** The ascending and descending traces of one satellite dataset. */
  function SatelliteTraces(b: string, t: InfoTable, crange: (real, real), hrange: (real, real))
    : (r: Result<seq<Trace>>)
    requires ValidInfo(t)
    ensures r.Ok? ==> |r.value| == 2
  {
    match Visible(t, crange, hrange)
    case Err(e) => Err(e)
    case Ok(d) =>
      var cols := t.frame.columns;
      if "LAT" !in cols then Err(KeyError("LAT"))
      else if "LON" !in cols then Err(KeyError("LON"))
      else
        var asc, des := OfKind(d, "asc"), OfKind(d, "des");
        forall x | x in asc ensures x in d { OfKindMember(d, "asc", x); }
        forall x | x in des ensures x in d { OfKindMember(d, "des", x); }
        VisibleCells(t, crange, hrange, asc);
        VisibleCells(t, crange, hrange, des);
        var la, lo := FirstIndex(cols, "LAT"), FirstIndex(cols, "LON");
        Ok([Markers(b + " ascending", Points(asc, la, lo)), Markers(b + " descending", Points(des, la, lo))])
  }

  lemma VisibleCells(t: InfoTable, crange: (real, real), hrange: (real, real), part: seq<Row<string>>)
    requires ValidInfo(t) && Visible(t, crange, hrange).Ok?
    requires forall x :: x in part ==> x in Visible(t, crange, hrange).value
    ensures forall i :: 0 <= i < |part| ==> |part[i].cells| == |t.frame.columns|
  {
    forall i | 0 <= i < |part| ensures |part[i].cells| == |t.frame.columns| {
      VisibleSpec(t, crange, hrange, part[i]);
    }
  }

  /** The traces for one entry of the source selection. */
  function SourceTraces(b: string, pos: Frame<string, string>, datasets: map<string, InfoTable>,
                        crange: (real, real), hrange: (real, real)): (r: Result<seq<Trace>>)
    requires WellFormed(pos) && forall k :: k in datasets ==> ValidInfo(datasets[k])
  {
    if b == "Lev. reliable" then
      match BenchmarkTrace(pos, 1.0, "Levelling reliable")
      case Err(e) => Err(e)
      case Ok(tr) => Ok([tr])
    else if b == "Lev. unreliable" then
      match BenchmarkTrace(pos, 0.0, "Levelling unreliable")
      case Err(e) => Err(e)
      case Ok(tr) => Ok([tr])
    else if b !in datasets then Err(KeyError(b))
    else SatelliteTraces(b, datasets[b], crange, hrange)
  }

  /** The loop over the selection: each entry's traces in order; the first error stops it. */
  function AllTraces(benchplot: seq<string>, pos: Frame<string, string>, datasets: map<string, InfoTable>,
                     crange: (real, real), hrange: (real, real)): (r: Result<seq<Trace>>)
    requires WellFormed(pos) && forall k :: k in datasets ==> ValidInfo(datasets[k])
    ensures r.Ok? <==> forall i :: 0 <= i < |benchplot| ==> SourceTraces(benchplot[i], pos, datasets, crange, hrange).Ok?
  {
    if benchplot == [] then Ok([])
    else
      assert forall i :: 1 <= i < |benchplot| ==> benchplot[i] == benchplot[1..][i - 1];
      match SourceTraces(benchplot[0], pos, datasets, crange, hrange)
      case Err(e) => Err(e)
      case Ok(first) =>
        match AllTraces(benchplot[1..], pos, datasets, crange, hrange)
        case Err(e) => Err(e)
        case Ok(rest) => Ok(first + rest)
  }

  /** The satellite datasets of the map, by the names the selection uses. */
  function MapDatasets(ers: InfoTable, env: InfoTable, csk: InfoTable, sen: InfoTable): map<string, InfoTable> {
    map["ERS" := ers, "ENVISAT" := env, "COSMO-SkyMed" := csk, "Sentinel-1" := sen]
  }

  function MapSquare(benchplot: seq<string>, pos: Frame<string, string>,
                     ers: InfoTable, env: InfoTable, csk: InfoTable, sen: InfoTable,
                     crange: (real, real), hrange: (real, real)): (r: Result<seq<Trace>>)
    requires WellFormed(pos) && ValidInfo(ers) && ValidInfo(env) && ValidInfo(csk) && ValidInfo(sen)
  {
    var blank := if |benchplot| < 1 then [Placeholder] else [];
    match AllTraces(benchplot, pos, MapDatasets(ers, env, csk, sen), crange, hrange)
    case Err(e) => Err(e)
    case Ok(traces) => Ok(blank + traces)
  }

  lemma {:induction false} NoPlaceholder(benchplot: seq<string>, pos: Frame<string, string>,
                                         datasets: map<string, InfoTable>, crange: (real, real), hrange: (real, real))
    requires WellFormed(pos) && forall k :: k in datasets ==> ValidInfo(datasets[k])
    ensures AllTraces(benchplot, pos, datasets, crange, hrange).Ok? ==>
              Placeholder !in AllTraces(benchplot, pos, datasets, crange, hrange).value
  {
    if benchplot != [] {
      NoPlaceholder(benchplot[1..], pos, datasets, crange, hrange);
    }
  }

  /** An empty selection draws exactly one placeholder point at (0, 0) and nothing else;
      a non-empty one never draws it. A selected name that is neither a levelling
      choice nor a satellite dataset is a KeyError. */
  lemma MapSquarePlaceholder(benchplot: seq<string>, pos: Frame<string, string>,
                             ers: InfoTable, env: InfoTable, csk: InfoTable, sen: InfoTable,
                             crange: (real, real), hrange: (real, real))
    requires WellFormed(pos) && ValidInfo(ers) && ValidInfo(env) && ValidInfo(csk) && ValidInfo(sen)
    ensures benchplot == [] ==> MapSquare(benchplot, pos, ers, env, csk, sen, crange, hrange) == Ok([Placeholder])
    ensures benchplot != [] && MapSquare(benchplot, pos, ers, env, csk, sen, crange, hrange).Ok? ==>
              Placeholder !in MapSquare(benchplot, pos, ers, env, csk, sen, crange, hrange).value
    ensures (exists i :: 0 <= i < |benchplot| &&
               benchplot[i] !in {"Lev. reliable", "Lev. unreliable", "ERS", "ENVISAT", "COSMO-SkyMed", "Sentinel-1"}) ==>
              MapSquare(benchplot, pos, ers, env, csk, sen, crange, hrange).Err?
  {
    if benchplot == [] {
      assert AllTraces(benchplot, pos, MapDatasets(ers, env, csk, sen), crange, hrange) == Ok([]);
      assert [Placeholder] + [] == [Placeholder];
    }
    NoPlaceholder(benchplot, pos, MapDatasets(ers, env, csk, sen), crange, hrange);
  }

  /** Each satellite dataset contributes an ascending then a descending trace. Their
      points are the shown scatterers of type "asc", respectively "des", in table order,
      and when every TYPE is "asc" or "des" the two traces share the shown scatterers out
      exactly. */
  lemma SatelliteTracesSpec(b: string, t: InfoTable, crange: (real, real), hrange: (real, real), x: Row<string>)
    requires ValidInfo(t) && SatelliteTraces(b, t, crange, hrange).Ok?
    ensures var cols := t.frame.columns;
            var d := Visible(t, crange, hrange).value;
            var asc, des := OfKind(d, "asc"), OfKind(d, "des");
            var traces := SatelliteTraces(b, t, crange, hrange).value;
            && traces[0].Markers? && traces[0].name == b + " ascending" && |traces[0].points| == |asc|
            && traces[1].Markers? && traces[1].name == b + " descending" && |traces[1].points| == |des|
            && (forall i :: 0 <= i < |asc| ==> traces[0].points[i].id == asc[i].id)
            && (forall i :: 0 <= i < |des| ==> traces[1].points[i].id == des[i].id)
            && (x in asc <==> x in Rows(t.frame, t.kind) && |x.cells| == |cols| && Shown(x, cols, crange, hrange) && x.tag == "asc")
            && (x in des <==> x in Rows(t.frame, t.kind) && |x.cells| == |cols| && Shown(x, cols, crange, hrange) && x.tag == "des")
            && ((forall k :: 0 <= k < |t.kind| ==> IsLos(t.kind[k])) ==> multiset(asc) + multiset(des) == multiset(d))
  {
    var d := Visible(t, crange, hrange).value;
    VisibleSpec(t, crange, hrange, x);
    OfKindMember(d, "asc", x);
    OfKindMember(d, "des", x);
    if forall k :: 0 <= k < |t.kind| ==> IsLos(t.kind[k]) {
      forall i | 0 <= i < |d| ensures IsLos(d[i].tag) {
        VisibleSpec(t, crange, hrange, d[i]);
        var rows := Rows(t.frame, t.kind);
        var j :| 0 <= j < |rows| && rows[j] == d[i];
        assert d[i].tag == t.kind[j];
      }
      KindSplitExact(d);
    }
  }

  // ---------------------------------------------------------------------------
  // MapPointsDisplacement: levelling in millimetres, rebased per column
  // ---------------------------------------------------------------------------

  /** Metres to millimetres; NaN stays NaN. */
  function Millimetres(c: Cell): (r: Cell)
    ensures r.Some? <==> c.Some?
  {
    match c
    case None => None
    case Some(v) => Some(v * 1000.0)
  }

  function Shift(c: Cell, base: real): (r: Cell)
    ensures r.Some? <==> c.Some?
  {
    match c
    case None => None
    case Some(v) => Some(v - base)
  }

  function ColumnOf<R, C>(f: Frame<R, C>, k: nat): (col: seq<Cell>)
    requires WellFormed(f) && k < |f.columns|
    ensures |col| == |f.index|
  {
    seq(|f.cells|, i requires 0 <= i < |f.cells| => f.cells[i][k])
  }

  /** `first_valid_index()`: the position of the first non-NaN value, None if there is none. */
  function FirstValid(col: seq<Cell>): (r: Option<nat>)
    ensures r.Some? ==> r.value < |col| && col[r.value].Some? && forall i :: 0 <= i < r.value ==> col[i].None?
    ensures r.None? ==> forall i :: 0 <= i < |col| ==> col[i].None?
  {
    if col == [] then None
    else if col[0].Some? then Some(0)
    else match FirstValid(col[1..])
      case None => None
      case Some(i) => Some(i + 1)
  }

  /** Every column has a value somewhere. */
  predicate Anchored<R, C>(f: Frame<R, C>)
    requires WellFormed(f)
  {
    forall k :: 0 <= k < |f.columns| ==> FirstValid(ColumnOf(f, k)).Some?
  }

  /** The rebased value of row i, column k: millimetres, minus the millimetres of the
      column's first valid value. */
  function RebasedCell<R, C>(f: Frame<R, C>, i: nat, k: nat): Cell
    requires WellFormed(f) && i < |f.index| && k < |f.columns| && FirstValid(ColumnOf(f, k)).Some?
  {
    var first := FirstValid(ColumnOf(f, k)).value;
    Shift(Millimetres(f.cells[i][k]), Millimetres(f.cells[first][k]).value)
  }

  /** The levelling frame as the displacement plots use it. A column with no value at all
      makes `loc[None, col]` raise a KeyError. */
  function Rebased(f: Frame<Date, string>): (r: Result<Frame<Date, string>>)
    requires WellFormed(f)
    ensures r.Ok? <==> Anchored(f)
    ensures r.Err? ==> r.error == KeyError("None")
    ensures r.Ok? ==> WellFormed(r.value) && r.value.index == f.index && r.value.columns == f.columns
  {
    if Anchored(f) then
      Ok(Frame(f.index, f.columns, seq(|f.cells|, i requires 0 <= i < |f.cells| =>
        seq(|f.columns|, k requires 0 <= k < |f.columns| => RebasedCell(f, i, k)))))
    else Err(KeyError("None"))
  }

  /** In the rebased frame each column reads 0 at its first valid date and NaN before it;
      NaN stays exactly where it was; and the difference between two values of a column
      is 1000 times their difference in metres. */
  lemma RebasedSpec(f: Frame<Date, string>, i: nat, j: nat, k: nat)
    requires WellFormed(f) && Rebased(f).Ok? && i < |f.index| && j < |f.index| && k < |f.columns|
    ensures var g := Rebased(f).value;
            var first := FirstValid(ColumnOf(f, k)).value;
            && g.cells[first][k] == Some(0.0)
            && (forall p :: 0 <= p < first ==> g.cells[p][k] == None)
            && (g.cells[i][k].Some? <==> f.cells[i][k].Some?)
            && (f.cells[i][k].Some? && f.cells[j][k].Some? ==>
                  g.cells[i][k].value - g.cells[j][k].value == 1000.0 * (f.cells[i][k].value - f.cells[j][k].value))
  {
    var g := Rebased(f).value;
    var first := FirstValid(ColumnOf(f, k)).value;
    assert ColumnOf(f, k)[first] == f.cells[first][k];
    var base := Millimetres(f.cells[first][k]).value;
    assert base == 1000.0 * f.cells[first][k].value;
    assert g.cells[first][k] == RebasedCell(f, first, k) == Some(base - base);
    assert g.cells[i][k] == RebasedCell(f, i, k) && g.cells[j][k] == RebasedCell(f, j, k);
    forall p | 0 <= p < first ensures f.cells[p][k] == None {
      assert ColumnOf(f, k)[p] == f.cells[p][k];
    }
  }

  /** Scale the whole frame, then rewrite it one column at a time. */
  method Rebase(f: Frame<Date, string>) returns (r: Result<Frame<Date, string>>)
    requires WellFormed(f)
    ensures r == Rebased(f)
  {
    var cells := seq(|f.cells|, i requires 0 <= i < |f.cells| =>
                   seq(|f.columns|, k requires 0 <= k < |f.columns| => Millimetres(f.cells[i][k])));
    for k := 0 to |f.columns|
      invariant |cells| == |f.cells|
      invariant forall i :: 0 <= i < |cells| ==> |cells[i]| == |f.columns|
      invariant forall m :: 0 <= m < k ==> FirstValid(ColumnOf(f, m)).Some?
      invariant forall i, m :: 0 <= i < |cells| && 0 <= m < k ==> cells[i][m] == RebasedCell(f, i, m)
      invariant forall i, m :: 0 <= i < |cells| && k <= m < |f.columns| ==> cells[i][m] == Millimetres(f.cells[i][m])
    {
      // first_valid_index() of the current column
      var i := 0;
      while i < |cells| && cells[i][k].None?
        invariant 0 <= i <= |cells|
        invariant forall p :: 0 <= p < i ==> ColumnOf(f, k)[p].None?
      {
        i := i + 1;
      }
      if i == |cells| {
        assert FirstValid(ColumnOf(f, k)).None?;
        return Err(KeyError("None"));
      }
      assert ColumnOf(f, k)[i].Some?;
      assert FirstValid(ColumnOf(f, k)) == Some(i);
      var base := cells[i][k].value;
      ghost var before := cells;
      cells := seq(|cells|, p requires 0 <= p < |cells| => cells[p][k := Shift(cells[p][k], base)]);
      RebaseStep(f, before, cells, k, i);
    }
    RebasedCells(f, cells);
    r := Ok(Frame(f.index, f.columns, cells));
  }

  /** Rebasing column `k` on its first valid row `first` extends the rebased columns by one. */
  lemma RebaseStep(f: Frame<Date, string>, before: seq<seq<Cell>>, after: seq<seq<Cell>>, k: nat, first: nat)
    requires WellFormed(f) && k < |f.columns| && |before| == |f.cells|
    requires forall i :: 0 <= i < |before| ==> |before[i]| == |f.columns|
    requires forall m :: 0 <= m < k ==> FirstValid(ColumnOf(f, m)).Some?
    requires FirstValid(ColumnOf(f, k)) == Some(first)
    requires forall i, m :: 0 <= i < |before| && 0 <= m < k ==> before[i][m] == RebasedCell(f, i, m)
    requires forall i, m :: 0 <= i < |before| && k <= m < |f.columns| ==> before[i][m] == Millimetres(f.cells[i][m])
    requires first < |before| && before[first][k].Some? && |after| == |before|
    requires forall p :: 0 <= p < |before| ==> after[p] == before[p][k := Shift(before[p][k], before[first][k].value)]
    ensures forall i :: 0 <= i < |after| ==> |after[i]| == |f.columns|
    ensures forall i, m :: 0 <= i < |after| && 0 <= m <= k ==> after[i][m] == RebasedCell(f, i, m)
    ensures forall i, m :: 0 <= i < |after| && k < m < |f.columns| ==> after[i][m] == Millimetres(f.cells[i][m])
  {
  }

  /** A grid holding every rebased cell is the rebased frame's grid. */
  lemma RebasedCells(f: Frame<Date, string>, cells: seq<seq<Cell>>)
    requires WellFormed(f) && Anchored(f) && |cells| == |f.cells|
    requires forall i :: 0 <= i < |cells| ==> |cells[i]| == |f.columns|
    requires forall i, m :: 0 <= i < |cells| && 0 <= m < |f.columns| ==> cells[i][m] == RebasedCell(f, i, m)
    ensures Rebased(f) == Ok(Frame(f.index, f.columns, cells))
  {
    var g := Rebased(f).value;
    forall i | 0 <= i < |cells| ensures cells[i] == g.cells[i] {
      assert |g.cells[i]| == |cells[i]|;
      forall m | 0 <= m < |cells[i]| ensures cells[i][m] == g.cells[i][m] {
        assert g.cells[i][m] == RebasedCell(f, i, m);
      }
    }
    assert cells == g.cells;
  }

  // ---------------------------------------------------------------------------
  // MapPointsDisplacement: figures and dataset dispatch
  // ---------------------------------------------------------------------------

  /** How many figures there are, and the figure each point is drawn in. */
  method FigureIndices(together: bool, n: nat) returns (count: nat, indices: seq<nat>)
    ensures |indices| == n
    ensures together ==> count == 1 && forall k :: 0 <= k < n ==> indices[k] == 0
    ensures !together ==> count == n && forall k :: 0 <= k < n ==> indices[k] == k
    ensures forall k :: 0 <= k < n ==> indices[k] < count
  {
    if together {
      count := 1;
      indices := seq(n, _ => 0);
    } else {
      count := n;
      indices := seq(n, k => k);
    }
  }

  /** `p[:5]` */
  function Prefix5(p: string): (key: string)
    ensures |key| <= 5 && StartsWith(p, key)
  {
    if |p| <= 5 then p else p[..5]
  }

  /** The twelve point datasets: whether each may be resampled, and whether its points
      carry a height and a coherence. */
  const Datasets: map<string, (bool, bool)> :=
    map["ers-a" := (false, true), "ers-d" := (false, true), "ers-v" := (false, false),
        "env-a" := (false, true), "env-d" := (false, true), "env-v" := (false, false),
        "sen-a" := (true, true), "sen-d" := (true, true), "sen-v" := (true, false),
        "csk-a" := (true, true), "csk-d" := (true, true), "csk-v" := (true, false)]

  /** Where a point's series comes from. */
  datatype Source = Satellite(key: string) | Levelling

  /** How one point is drawn: the figure, the dataset, how many times that dataset's
      frame has been resampled by then (the dictionary entry is overwritten each time),
      and whether the title shows height and coherence. */
  datatype Plan = Plan(figure: nat, source: Source, resamplings: nat, titled: bool)

  /** Whether resampling is attempted for a point with this prefix. */
  predicate Requested(key: string, resample: Option<string>) {
    key in Datasets && resample.Some? && Datasets[key].0
  }

  /** How many of `points` have the prefix `key`. */
  function CountPrefix(points: seq<string>, key: string): (n: nat)
    ensures n <= |points|
  {
    if points == [] then 0
    else CountPrefix(points[..|points| - 1], key) + (if Prefix5(points[|points| - 1]) == key then 1 else 0)
  }

  /** The plan of point k. An unknown prefix, or a resampling rule pandas refuses
      (`accepted` false), lands in the bare `except` and falls back to levelling. */
  function PlanOf(points: seq<string>, k: nat, figure: nat, together: bool, resample: Option<string>, accepted: bool): Plan
    requires k < |points|
  {
    var key := Prefix5(points[k]);
    if key !in Datasets || (Requested(key, resample) && !accepted) then
      Plan(figure, Levelling, 0, false)
    else if Requested(key, resample) then
      Plan(figure, Satellite(key), CountPrefix(points[..k + 1], key), Datasets[key].1 && !together)
    else
      Plan(figure, Satellite(key), 0, Datasets[key].1 && !together)
  }

  /** The dictionary of datasets after the first points: how many times each entry has
      been replaced by its resampled frame. */
  function Resampled(points: seq<string>, resample: Option<string>, accepted: bool): map<string, nat> {
    map key | key in Datasets :: if resample.Some? && accepted && Datasets[key].0 then CountPrefix(points, key) else 0
  }

  lemma ResampledStep(points: seq<string>, k: nat, resample: Option<string>, accepted: bool)
    requires k < |points|
    ensures var key := Prefix5(points[k]);
            var before := Resampled(points[..k], resample, accepted);
            Resampled(points[..k + 1], resample, accepted)
              == if Requested(key, resample) && accepted then before[key := before[key] + 1] else before
  {
    assert points[..k + 1][..k] == points[..k];
  }

  /** The figures, and for each point in order its plan. The dictionary of
      datasets is kept as the number of times each entry has been resampled. */
  method PlanPoints(points: seq<string>, together: bool, resample: Option<string>, accepted: bool)
    returns (count: nat, plans: seq<Plan>)
    ensures |plans| == |points|
    ensures together ==> count == 1
    ensures !together ==> count == |points|
    ensures forall k :: 0 <= k < |points| ==>
              plans[k] == PlanOf(points, k, if together then 0 else k, together, resample, accepted)
    ensures forall k :: 0 <= k < |points| ==> plans[k].figure < count
  {
    var indices;
    count, indices := FigureIndices(together, |points|);
    var resampled := Resampled([], resample, accepted);
    plans := [];
    for k := 0 to |points|
      invariant |plans| == k
      invariant resampled == Resampled(points[..k], resample, accepted)
      invariant forall j :: 0 <= j < k ==>
                  plans[j] == PlanOf(points, j, if together then 0 else j, together, resample, accepted)
    {
      var plan;
      plan, resampled := NextPlan(points, k, indices[k], together, resample, accepted, resampled);
      plans := plans + [plan];
    }
  }

  /** One turn of the loop over the points: the `try` block, or its `except` fallback. */
  method NextPlan(points: seq<string>, k: nat, figure: nat, together: bool, resample: Option<string>,
                  accepted: bool, resampled: map<string, nat>)
    returns (plan: Plan, after: map<string, nat>)
    requires k < |points| && resampled == Resampled(points[..k], resample, accepted)
    ensures plan == PlanOf(points, k, figure, together, resample, accepted)
    ensures after == Resampled(points[..k + 1], resample, accepted)
  {
    var key := Prefix5(points[k]);
    ResampledStep(points, k, resample, accepted);
    after := resampled;
    if key !in Datasets {
      plan := Plan(figure, Levelling, 0, false);
    } else if resample.Some? && Datasets[key].0 {
      if accepted {
        after := resampled[key := resampled[key] + 1];
        plan := Plan(figure, Satellite(key), after[key], Datasets[key].1 && !together);
      } else {
        plan := Plan(figure, Levelling, 0, false);
      }
    } else {
      plan := Plan(figure, Satellite(key), 0, Datasets[key].1 && !together);
    }
  }

  /** Which datasets may be resampled, and which carry height and coherence. */
  lemma DatasetFlags(key: string)
    requires key in Datasets
    ensures |key| == 5
    ensures Datasets[key].0 <==> key[..3] in {"sen", "csk"}
    ensures Datasets[key].1 <==> key[4] != 'v'
  {
    assert key in {"ers-a", "ers-d", "ers-v", "env-a", "env-d", "env-v",
                   "sen-a", "sen-d", "sen-v", "csk-a", "csk-d", "csk-v"};
    if key[0] == 'e' {
      assert key[..3][0] == 'e' && "sen"[0] == 's' && "csk"[0] == 'c';
    } else {
      assert key[..3] == "sen" || key[..3] == "csk";
    }
  }

  /** A point is read from the dataset named by its first five characters, or from the
      levelling when there is no such dataset. It is resampled exactly when a rule is
      given, pandas accepts it and the dataset is a Sentinel-1 or COSMO-SkyMed one; the
      n-th such point of a dataset sees its frame resampled n times. */
  lemma PlanOfSpec(points: seq<string>, k: nat, figure: nat, together: bool, resample: Option<string>, accepted: bool)
    requires k < |points|
    ensures var plan := PlanOf(points, k, figure, together, resample, accepted);
            var key := Prefix5(points[k]);
            && plan.figure == figure
            && (plan.source == Levelling <==>
                  key !in Datasets || (resample.Some? && Datasets[key].0 && !accepted))
            && (plan.source.Satellite? ==> plan.source.key == key)
            && (plan.resamplings > 0 <==>
                  plan.source.Satellite? && resample.Some? && key[..3] in {"sen", "csk"})
            && (plan.titled <==> plan.source.Satellite? && !together && key[4] != 'v')
  {
    var key := Prefix5(points[k]);
    var plan := PlanOf(points, k, figure, together, resample, accepted);
    if key in Datasets {
      DatasetFlags(key);
    }
    if key in Datasets && resample.Some? && Datasets[key].0 && accepted {
      CountPrefixLast(points[..k + 1], key);
      assert points[..k + 1][k] == points[k];
    }
  }

  lemma CountPrefixLast(points: seq<string>, key: string)
    requires points != [] && Prefix5(points[|points| - 1]) == key
    ensures CountPrefix(points, key) > 0
  {
  }

  // ---------------------------------------------------------------------------
  // MapPointsDisplacement: the plotted series of one point
  // ---------------------------------------------------------------------------

  /** `d[0].loc[start:end][p]`: the dates between the two bounds (inclusive, as label
      slicing on an ascending index), each with the point's value; a point that is not a
      column of the chosen frame raises a KeyError. */
  function Series(f: Frame<Date, string>, p: string, start: Date, end: Date): (r: Result<seq<(Date, Cell)>>)
    requires WellFormed(f)
    ensures r.Err? <==> p !in f.columns
  {
    if p !in f.columns then Err(KeyError(p))
    else Ok(InRange(f.index, ColumnOf(f, FirstIndex(f.columns, p)), start, end))
  }

  function InRange(dates: seq<Date>, values: seq<Cell>, start: Date, end: Date): (r: seq<(Date, Cell)>)
    requires |values| == |dates|
    ensures |r| <= |dates|
  {
    if dates == [] then []
    else
      (if DateLe(start, dates[0]) && DateLe(dates[0], end) then [(dates[0], values[0])] else [])
      + InRange(dates[1..], values[1..], start, end)
  }

  /** The series holds exactly the (date, value) rows of the frame whose date lies
      between the bounds, in the frame's order. */
  lemma {:induction false} InRangeSpec(dates: seq<Date>, values: seq<Cell>, start: Date, end: Date, x: (Date, Cell))
    requires |values| == |dates|
    ensures x in InRange(dates, values, start, end) <==>
              (exists i :: 0 <= i < |dates| && x == (dates[i], values[i])) && DateLe(start, x.0) && DateLe(x.0, end)
  {
    if dates != [] {
      InRangeSpec(dates[1..], values[1..], start, end, x);
      if exists i :: 0 <= i < |dates| && x == (dates[i], values[i]) {
        var i :| 0 <= i < |dates| && x == (dates[i], values[i]);
        if i > 0 {
          assert x == (dates[1..][i - 1], values[1..][i - 1]);
        }
      }
      if exists i :: 0 <= i < |dates[1..]| && x == (dates[1..][i], values[1..][i]) {
        var i :| 0 <= i < |dates[1..]| && x == (dates[1..][i], values[1..][i]);
        assert x == (dates[i + 1], values[i + 1]);
      }
    }
  }
}
