/** The tower ETL script: the levelling table, the benchmark sub-table centred on the tower,
    the combined benchmark registry with its signed radius, and the stabilisation dates.
    Coordinates are exact reals; `sqrt` is kept symbolic (a radius is a sign and the squared
    norm it is the root of) and the polar-to-Cartesian `cos`/`sin` results are inputs. */
module TowerTreatment {
  import opened Common
  import opened Frames
  import opened Dates

  // ---------------------------------------------------------------------------
  // Levelling: the old table followed by the new sheet, transposed
  // ---------------------------------------------------------------------------

  /** The label of a levelling survey (its date, as written in the file). */
  type Survey = string

  /** `pd.concat([lev_tower, lev_tower_new.T])`: the new sheet has one row per point and one
      column per survey, so it is transposed before its surveys are appended as rows. */
  function TowerLevelling(first: Frame<Survey, string>, sheet: Frame<string, Survey>): Result<Frame<Survey, string>>
    requires WellFormed(first) && WellFormed(sheet)
  {
    ConcatRows(first, Transpose(sheet))
  }

  /** The rows are the old table's surveys, then the sheet's surveys; a point is a column
      when either table has it, and the old readings keep their point columns. */
  lemma TowerLevellingSpec(first: Frame<Survey, string>, sheet: Frame<string, Survey>, p: string)
    requires WellFormed(first) && WellFormed(sheet)
    requires TowerLevelling(first, sheet).Ok?
    ensures TowerLevelling(first, sheet).value.index == first.index + sheet.columns
    ensures p in TowerLevelling(first, sheet).value.columns <==> p in first.columns || p in sheet.index
    ensures forall i :: 0 <= i < |first.index| ==>
              CellAt(TowerLevelling(first, sheet).value, i, p) == CellAt(first, i, p)
  {
    ConcatRowsOutcome(first, Transpose(sheet));
    ConcatRowsColumn(first, Transpose(sheet), p);
  }

  /** The reading of point `p` in the `j`-th new survey is the sheet's cell for that point
      (its row) and that survey (its column), or missing when the sheet lacks the point. */
  lemma TowerLevellingNewSurvey(first: Frame<Survey, string>, sheet: Frame<string, Survey>, p: string, j: nat)
    requires WellFormed(first) && WellFormed(sheet)
    requires TowerLevelling(first, sheet).Ok? && j < |sheet.columns|
    ensures |first.index| + j < |TowerLevelling(first, sheet).value.index|
    ensures CellAt(TowerLevelling(first, sheet).value, |first.index| + j, p)
            == if p in sheet.index then sheet.cells[FirstIndex(sheet.index, p)][j] else None
  {
    var t := Transpose(sheet);
    ConcatRowsOutcome(first, t);
    ConcatRowsColumn(first, t, p);
    if p in sheet.index {
      TransposeCells(sheet, j, FirstIndex(sheet.index, p));
    }
  }

  // ---------------------------------------------------------------------------
  // Benchmark sub-table
  // ---------------------------------------------------------------------------

  /** The square benchmarks that matter to the tower. */
  const BenchList: seq<int> := [14, 101, 102, 103, 104, 105, 106, 107, 108,
                                901, 902, 903, 904, 905, 906, 907, 908, 909,
                                910, 911, 912, 913, 914, 915, 920]

  /** A row of the square benchmark file: coordinates and instrument type. */
  datatype BenchXY = BenchXY(x: real, y: real, kind: string)

  /** The rows of `table` for the ids of `list`, in list order; an id the table lacks
      raises a `KeyError`. */
  method BenchSubTable(table: map<int, BenchXY>, list: seq<int>) returns (r: Result<seq<BenchXY>>)
    ensures r.Ok? <==> forall b :: b in list ==> b in table
    ensures r.Ok? ==> |r.value| == |list|
                      && forall i :: 0 <= i < |list| ==> list[i] in table && r.value[i] == table[list[i]]
    ensures r.Err? ==> exists i :: 0 <= i < |list| && list[i] !in table && r.error == KeyError(IntToString(list[i]))
  {
    var xy: seq<BenchXY> := [];
    for i := 0 to |list|
      invariant |xy| == i
      invariant forall k :: 0 <= k < i ==> list[k] in table && xy[k] == table[list[k]]
    {
      if list[i] !in table {
        return Err(KeyError(IntToString(list[i])));
      }
      xy := xy + [table[list[i]]];
    }
    return Ok(xy);
  }

  // ---------------------------------------------------------------------------
  // Centring on the link pairs
  // ---------------------------------------------------------------------------

  /** The four pairs of opposite benchmarks whose midpoints locate the tower's centre. */
  const Links: seq<(int, int)> := [(102, 106), (103, 107), (104, 108), (105, 101)]

  function Sum(s: seq<real>): real {
    if s == [] then 0.0 else Sum(s[..|s| - 1]) + s[|s| - 1]
  }

  lemma Sum4(s: seq<real>)
    requires |s| == 4
    ensures Sum(s) == s[0] + s[1] + s[2] + s[3]
  {
    assert Sum(s[..1]) == s[0] by {
      assert s[..1][..0] == [];
    }
    assert Sum(s[..2]) == Sum(s[..1]) + s[1] by {
      assert s[..2][..1] == s[..1];
    }
    assert Sum(s[..3]) == Sum(s[..2]) + s[2] by {
      assert s[..3][..2] == s[..2];
    }
    assert s[..4] == s;
  }

  /** `Average(lst)` */
  function Average(s: seq<real>): real
    requires s != []
  {
    Sum(s) / |s| as real
  }

  /** The benchmark sub-table, indexed by benchmark id; its `x` and `y` columns are
      overwritten when the table is centred. */
  class BenchTable {
    var ids: seq<int>
    var xs: seq<real>
    var ys: seq<real>
    var kinds: seq<string>

    predicate Valid()
      reads this
    {
      |xs| == |ids| && |ys| == |ids| && |kinds| == |ids|
    }

    /** `set_index('benchmarks')` over the rows picked for `list`. */
    constructor (list: seq<int>, rows: seq<BenchXY>)
      requires |rows| == |list|
      ensures Valid() && ids == list
      ensures forall i :: 0 <= i < |list| ==> xs[i] == rows[i].x && ys[i] == rows[i].y && kinds[i] == rows[i].kind
    {
      ids := list;
      xs := seq(|rows|, i requires 0 <= i < |rows| => rows[i].x);
      ys := seq(|rows|, i requires 0 <= i < |rows| => rows[i].y);
      kinds := seq(|rows|, i requires 0 <= i < |rows| => rows[i].kind);
    }

    /** Subtracts the centre of the link midpoints from every `x` and `y`. A link id missing
        from the table raises a `KeyError` before anything changes. */
    method CentreOnLinks() returns (r: Result<(real, real)>)
      requires Valid()
      modifies this
      ensures Valid() && ids == old(ids) && kinds == old(kinds)
      ensures r.Ok? <==> LinksPresent(ids)
      ensures r.Ok? ==> r.value == (LinkCentre(ids, old(xs)), LinkCentre(ids, old(ys)))
                        && xs == Shift(old(xs), r.value.0) && ys == Shift(old(ys), r.value.1)
      ensures r.Err? ==> xs == old(xs) && ys == old(ys)
    {
      if !LinksPresent(ids) {
        return Err(KeyError("link benchmark"));
      }
      var cx := LinkCentre(ids, xs);
      var cy := LinkCentre(ids, ys);
      xs := Shift(xs, cx);
      ys := Shift(ys, cy);
      return Ok((cx, cy));
    }
  }

  predicate LinksPresent(ids: seq<int>) {
    forall k :: 0 <= k < |Links| ==> Links[k].0 in ids && Links[k].1 in ids
  }

  /** The midpoint, along one coordinate, of each link pair (`.loc` finds the id's row). */
  function LinkMidpoints(ids: seq<int>, v: seq<real>): (m: seq<real>)
    requires |v| == |ids| && LinksPresent(ids)
    ensures |m| == |Links|
  {
    seq(|Links|, k requires 0 <= k < |Links| =>
      (v[FirstIndex(ids, Links[k].0)] + v[FirstIndex(ids, Links[k].1)]) / 2.0)
  }

  /** The tower's centre along one coordinate: the average of the link midpoints. */
  function LinkCentre(ids: seq<int>, v: seq<real>): real
    requires |v| == |ids| && LinksPresent(ids)
  {
    Average(LinkMidpoints(ids, v))
  }

  function Shift(v: seq<real>, c: real): (w: seq<real>)
    ensures |w| == |v|
  {
    seq(|v|, i requires 0 <= i < |v| => v[i] - c)
  }

  /** After centring, the link midpoints average to zero: the centre becomes the origin. */
  lemma {:induction false} CentredMidpointsAverageZero(ids: seq<int>, v: seq<real>)
    requires |v| == |ids| && LinksPresent(ids)
    ensures LinkCentre(ids, Shift(v, LinkCentre(ids, v))) == 0.0
  {
    var c := LinkCentre(ids, v);
    var m := LinkMidpoints(ids, v);
    var m' := LinkMidpoints(ids, Shift(v, c));
    forall k | 0 <= k < 4 ensures m'[k] == m[k] - c { }
    Sum4(m);
    Sum4(m');
  }

  // ---------------------------------------------------------------------------
  // The combined registry and its signed radius
  // ---------------------------------------------------------------------------

  /** A benchmark only the tower survey uses: id, coordinates (already computed from its
      angle and radius) and type. */
  datatype EIBench = EIBench(id: string, x: real, y: real, kind: string)

  function EIIds(ei: seq<EIBench>): (v: seq<string>)
    ensures |v| == |ei| && forall i :: 0 <= i < |ei| ==> v[i] == ei[i].id
  {
    seq(|ei|, i requires 0 <= i < |ei| => ei[i].id)
  }

  function EIXs(ei: seq<EIBench>): (v: seq<real>)
    ensures |v| == |ei| && forall i :: 0 <= i < |ei| ==> v[i] == ei[i].x
  {
    seq(|ei|, i requires 0 <= i < |ei| => ei[i].x)
  }

  function EIYs(ei: seq<EIBench>): (v: seq<real>)
    ensures |v| == |ei| && forall i :: 0 <= i < |ei| ==> v[i] == ei[i].y
  {
    seq(|ei|, i requires 0 <= i < |ei| => ei[i].y)
  }

  function EIKinds(ei: seq<EIBench>): (v: seq<string>)
    ensures |v| == |ei| && forall i :: 0 <= i < |ei| ==> v[i] == ei[i].kind
  {
    seq(|ei|, i requires 0 <= i < |ei| => ei[i].kind)
  }

  /** A radius `sign * sqrt(squared)`, the root left symbolic. */
  datatype SignedRadius = SignedRadius(sign: int, squared: real)

  function Negate(r: SignedRadius): SignedRadius {
    r.(sign := -r.sign)
  }

  /** The benchmark ids whose radius sign is flipped after the generic rule. */
  const Overrides: seq<string> := ["904", "I6", "E6"]

  /** `tower_bench_coord`: the centred square benchmarks followed by the E/I benchmarks,
      indexed by string ids, with a radius column once computed. */
  class TowerRegistry {
    var ids: seq<string>
    var xs: seq<real>
    var ys: seq<real>
    var kinds: seq<string>
    var radius: seq<SignedRadius>

    predicate Valid()
      reads this
    {
      |xs| == |ids| && |ys| == |ids| && |kinds| == |ids| && |radius| == |ids|
    }

    /** `pd.concat([bench_xy_tower, EI_bench_coords])` followed by `index.map(str)`. */
    constructor (bench: BenchTable, ei: seq<EIBench>)
      requires bench.Valid()
      ensures Valid()
      ensures ids == DecimalIds(bench.ids) + EIIds(ei)
      ensures xs == bench.xs + EIXs(ei) && ys == bench.ys + EIYs(ei)
      ensures kinds == bench.kinds + EIKinds(ei)
      ensures radius == seq(|ids|, _ => SignedRadius(1, 0.0))
    {
      ids := DecimalIds(bench.ids) + EIIds(ei);
      xs := bench.xs + EIXs(ei);
      ys := bench.ys + EIYs(ei);
      kinds := bench.kinds + EIKinds(ei);
      new;
      radius := seq(|ids|, _ => SignedRadius(1, 0.0));
    }

    /** `radius = sqrt(x**2 + y**2) * (2 * (x > 0) - 1)`, assigned as a column. */
    method ComputeRadius()
      requires Valid()
      modifies this
      ensures Valid() && ids == old(ids) && xs == old(xs) && ys == old(ys) && kinds == old(kinds)
      ensures radius == GenericRadius(xs, ys)
    {
      radius := GenericRadius(xs, ys);
    }

    /** Negates the radius of every row labelled `904`, `I6` and `E6`, in that order. A label
        the index lacks raises a `KeyError`, after the earlier labels were already flipped. */
    method FlipOverrides() returns (err: Option<Error>)
      requires Valid()
      modifies this
      ensures Valid() && ids == old(ids) && xs == old(xs) && ys == old(ys) && kinds == old(kinds)
      ensures err.None? <==> forall k :: 0 <= k < |Overrides| ==> Overrides[k] in ids
      ensures err.None? ==> radius == FlipFor(ids, old(radius), Overrides)
      ensures err.Some? ==>
        exists k :: 0 <= k < |Overrides| && Overrides[k] !in ids
          && (forall j :: 0 <= j < k ==> Overrides[j] in ids)
          && err == Some(KeyError(Overrides[k]))
          && radius == FlipFor(ids, old(radius), Overrides[..k])
    {
      for k := 0 to |Overrides|
        invariant Valid() && ids == old(ids) && xs == old(xs) && ys == old(ys) && kinds == old(kinds)
        invariant forall j :: 0 <= j < k ==> Overrides[j] in ids
        invariant radius == FlipFor(ids, old(radius), Overrides[..k])
      {
        var b := Overrides[k];
        if b !in ids {
          return Some(KeyError(b));
        }
        assert Overrides[..k + 1] == Overrides[..k] + [b];
        radius := FlipOne(ids, radius, b);
      }
      assert Overrides[..|Overrides|] == Overrides;
      return None;
    }
  }

  /** The generic sign rule: positive exactly when `x > 0`, so `x == 0` gives a negative radius. */
  function GenericRadius(xs: seq<real>, ys: seq<real>): (r: seq<SignedRadius>)
    requires |ys| == |xs|
    ensures |r| == |xs|
  {
    seq(|xs|, i requires 0 <= i < |xs| =>
      SignedRadius((if xs[i] > 0.0 then 1 else 0) * 2 - 1, xs[i] * xs[i] + ys[i] * ys[i]))
  }

  /** `.loc[b, 'radius'] = -.loc[b, 'radius']`: every row labelled `b` is negated. */
  function FlipOne(ids: seq<string>, r: seq<SignedRadius>, b: string): (f: seq<SignedRadius>)
    requires |r| == |ids|
    ensures |f| == |ids|
  {
    seq(|r|, i requires 0 <= i < |r| => if ids[i] == b then Negate(r[i]) else r[i])
  }

  /** The radii after negating, once per listed label, the rows carrying that label. */
  function FlipFor(ids: seq<string>, r: seq<SignedRadius>, bs: seq<string>): (f: seq<SignedRadius>)
    requires |r| == |ids|
    ensures |f| == |ids|
  {
    if bs == [] then r else FlipOne(ids, FlipFor(ids, r, bs[..|bs| - 1]), bs[|bs| - 1])
  }

  /** Flipping for distinct labels negates each row whose label is listed exactly once and
      leaves every other row as it was. */
  lemma {:induction false} FlipForSpec(ids: seq<string>, r: seq<SignedRadius>, bs: seq<string>, i: nat)
    requires |r| == |ids| && i < |ids| && Distinct(bs)
    ensures FlipFor(ids, r, bs)[i] == if ids[i] in bs then Negate(r[i]) else r[i]
  {
    if bs != [] {
      var init := bs[..|bs| - 1];
      assert Distinct(init);
      FlipForSpec(ids, r, init, i);
      assert bs == init + [bs[|bs| - 1]];
      if ids[i] == bs[|bs| - 1] {
        assert ids[i] !in init;
      }
    }
  }

  /** The final radius of every row: its magnitude is the root of x² + y², and its sign is
      positive exactly when `x > 0` differs from the row being one of `904`, `I6`, `E6`. */
  lemma FinalRadiusSign(ids: seq<string>, xs: seq<real>, ys: seq<real>, i: nat)
    requires |xs| == |ids| && |ys| == |ids| && i < |ids|
    ensures var r := FlipFor(ids, GenericRadius(xs, ys), Overrides)[i];
            && r.squared == xs[i] * xs[i] + ys[i] * ys[i]
            && (r.sign == 1 || r.sign == -1)
            && (r.sign == 1 <==> (xs[i] > 0.0) != (ids[i] in Overrides))
  {
    OverridesDistinct();
    FlippedRadiusSign(ids, xs, ys, Overrides, i);
  }

  lemma OverridesDistinct()
    ensures Distinct(Overrides)
  {
  }

  /** The generic rule followed by the flips for distinct labels `bs`. */
  lemma FlippedRadiusSign(ids: seq<string>, xs: seq<real>, ys: seq<real>, bs: seq<string>, i: nat)
    requires |xs| == |ids| && |ys| == |ids| && i < |ids| && Distinct(bs)
    ensures var r := FlipFor(ids, GenericRadius(xs, ys), bs)[i];
            && r.squared == xs[i] * xs[i] + ys[i] * ys[i]
            && (r.sign == 1 || r.sign == -1)
            && (r.sign == 1 <==> (xs[i] > 0.0) != (ids[i] in bs))
  {
    FlipForSpec(ids, GenericRadius(xs, ys), bs, i);
  }

  /** The registry's ids: the square benchmark ids written in decimal, then the E/I ids.
      Distinct integer ids stay distinct once written as strings. */
  lemma RegistryIdsDistinct(a: int, b: int)
    requires a != b
    ensures IntToString(a) != IntToString(b)
  {
    if IntToString(a) == IntToString(b) {
      IntToStringInjective(a, b);
    }
  }

  /** The x coordinates of the rows picked for `list`. */
  function PickedXs(table: map<int, BenchXY>, list: seq<int>): (v: seq<real>)
    requires forall i :: 0 <= i < |list| ==> list[i] in table
    ensures |v| == |list| && forall i :: 0 <= i < |list| ==> v[i] == table[list[i]].x
  {
    seq(|list|, i requires 0 <= i < |list| => table[list[i]].x)
  }

  function PickedYs(table: map<int, BenchXY>, list: seq<int>): (v: seq<real>)
    requires forall i :: 0 <= i < |list| ==> list[i] in table
    ensures |v| == |list| && forall i :: 0 <= i < |list| ==> v[i] == table[list[i]].y
  {
    seq(|list|, i requires 0 <= i < |list| => table[list[i]].y)
  }

  function PickedKinds(table: map<int, BenchXY>, list: seq<int>): (v: seq<string>)
    requires forall i :: 0 <= i < |list| ==> list[i] in table
    ensures |v| == |list| && forall i :: 0 <= i < |list| ==> v[i] == table[list[i]].kind
  {
    seq(|list|, i requires 0 <= i < |list| => table[list[i]].kind)
  }

  /** The link benchmarks are all among the picked ones, so centring never fails here; of
      the overridden labels, `904` is always a square benchmark and `I6`, `E6` can only come
      from the E/I list. */
  lemma PipelineLabels(ei: seq<EIBench>)
    ensures LinksPresent(BenchList)
    ensures "904" in DecimalIds(BenchList)
    ensures "904" in DecimalIds(BenchList) + EIIds(ei)
    ensures "I6" in DecimalIds(BenchList) + EIIds(ei) <==> "I6" in EIIds(ei)
    ensures "E6" in DecimalIds(BenchList) + EIIds(ei) <==> "E6" in EIIds(ei)
  {
    assert BenchList[12] == 904;
    assert IntToString(904) == "904";
    assert DecimalIds(BenchList)[12] == "904";
    forall k | 0 <= k < |BenchList| ensures DecimalIds(BenchList)[k] != "I6" && DecimalIds(BenchList)[k] != "E6" {
      NotLetterLabel(BenchList[k]);
    }
  }

  /** With `904` present, the overrides fail exactly on `I6` or `E6`, whichever is missing
      first. */
  lemma OverridesMissing(ids: seq<string>)
    requires "904" in ids
    ensures (forall k :: 0 <= k < |Overrides| ==> Overrides[k] in ids) <==> "I6" in ids && "E6" in ids
    ensures forall k :: 0 <= k < |Overrides| && Overrides[k] !in ids && (forall j :: 0 <= j < k ==> Overrides[j] in ids)
                        ==> Overrides[k] == if "I6" !in ids then "I6" else "E6"
  {
    assert |Overrides| == 3 && Overrides[0] == "904" && Overrides[1] == "I6" && Overrides[2] == "E6";
  }

  /** A decimal label never starts with a letter. */
  lemma NotLetterLabel(n: int)
    ensures IntToString(n) != "I6" && IntToString(n) != "E6"
  {
    var t := IntToString(n);
    IntToStringChars(n);
    if |t| > 0 {
      assert t[0] in t;
    }
  }

  /** The benchmark pipeline for the square benchmarks of `list`: pick and centre them,
      append the E/I benchmarks, compute the signed radius and apply the overrides. It fails
      on the first listed benchmark the file lacks, otherwise on `I6` or `E6` missing from
      the E/I list; otherwise the registry holds the centred square benchmarks followed by
      the E/I ones. */
  method BenchmarkPositions(table: map<int, BenchXY>, list: seq<int>, ei: seq<EIBench>)
    returns (r: Result<TowerRegistry>)
    requires LinksPresent(list)
    requires "904" in DecimalIds(list) + EIIds(ei)
    requires "I6" in DecimalIds(list) + EIIds(ei) <==> "I6" in EIIds(ei)
    requires "E6" in DecimalIds(list) + EIIds(ei) <==> "E6" in EIIds(ei)
    ensures r.Ok? <==> (forall i :: 0 <= i < |list| ==> list[i] in table) && "I6" in EIIds(ei) && "E6" in EIIds(ei)
    ensures r.Err? && !(forall i :: 0 <= i < |list| ==> list[i] in table) ==>
              exists i :: 0 <= i < |list| && list[i] !in table && r.error == KeyError(IntToString(list[i]))
    ensures r.Err? && (forall i :: 0 <= i < |list| ==> list[i] in table) ==>
              r.error == KeyError(if "I6" !in EIIds(ei) then "I6" else "E6")
    ensures r.Ok? ==> fresh(r.value) && r.value.Valid()
    ensures r.Ok? ==>
              var sx, sy := PickedXs(table, list), PickedYs(table, list);
              && r.value.ids == DecimalIds(list) + EIIds(ei)
              && r.value.xs == Shift(sx, LinkCentre(list, sx)) + EIXs(ei)
              && r.value.ys == Shift(sy, LinkCentre(list, sy)) + EIYs(ei)
              && r.value.kinds == PickedKinds(table, list) + EIKinds(ei)
              && r.value.radius == FlipFor(r.value.ids, GenericRadius(r.value.xs, r.value.ys), Overrides)
  {
    var rows := BenchSubTable(table, list);
    if rows.Err? {
      return Err(rows.error);
    }
    var bench := new BenchTable(list, rows.value);
    assert bench.xs == PickedXs(table, list) && bench.ys == PickedYs(table, list);
    assert bench.kinds == PickedKinds(table, list);
    var centre := bench.CentreOnLinks();
    assert centre.Ok?;
    var reg := new TowerRegistry(bench, ei);
    reg.ComputeRadius();
    var err := reg.FlipOverrides();
    OverridesMissing(reg.ids);
    if err.Some? {
      return Err(err.value);
    }
    return Ok(reg);
  }

  /** The script's pipeline, over `bench_list`. */
  method TowerBenchmarkPositions(table: map<int, BenchXY>, ei: seq<EIBench>)
    returns (r: Result<TowerRegistry>)
    ensures r.Ok? <==> (forall i :: 0 <= i < |BenchList| ==> BenchList[i] in table) && "I6" in EIIds(ei) && "E6" in EIIds(ei)
    ensures r.Err? && !(forall i :: 0 <= i < |BenchList| ==> BenchList[i] in table) ==>
              exists i :: 0 <= i < |BenchList| && BenchList[i] !in table && r.error == KeyError(IntToString(BenchList[i]))
    ensures r.Err? && (forall i :: 0 <= i < |BenchList| ==> BenchList[i] in table) ==>
              r.error == KeyError(if "I6" !in EIIds(ei) then "I6" else "E6")
    ensures r.Ok? ==> fresh(r.value) && r.value.Valid()
    ensures r.Ok? ==>
              var sx, sy := PickedXs(table, BenchList), PickedYs(table, BenchList);
              && r.value.ids == DecimalIds(BenchList) + EIIds(ei)
              && r.value.xs == Shift(sx, LinkCentre(BenchList, sx)) + EIXs(ei)
              && r.value.ys == Shift(sy, LinkCentre(BenchList, sy)) + EIYs(ei)
              && r.value.kinds == PickedKinds(table, BenchList) + EIKinds(ei)
              && r.value.radius == FlipFor(r.value.ids, GenericRadius(r.value.xs, r.value.ys), Overrides)
  {
    PipelineLabels(ei);
    r := BenchmarkPositions(table, BenchList, ei);
  }

  // ---------------------------------------------------------------------------
  // Stabilisation dates
  // ---------------------------------------------------------------------------

  /** The values of a list of parse results, or the first failure. */
  function CollectAll<T>(results: seq<Result<T>>): (r: Result<seq<T>>)
  {
    if results == [] then Ok([])
    else
      var init := CollectAll(results[..|results| - 1]);
      var last := results[|results| - 1];
      if init.Err? then init
      else if last.Err? then Err(last.error)
      else Ok(init.value + [last.value])
  }

  /** Collecting succeeds exactly when every result does, keeping the values in order;
      otherwise it reports the first failure. */
  lemma {:induction false} CollectAllSpec<T>(results: seq<Result<T>>)
    ensures CollectAll(results).Ok? <==> forall i :: 0 <= i < |results| ==> results[i].Ok?
    ensures CollectAll(results).Ok? ==>
              |CollectAll(results).value| == |results|
              && forall i :: 0 <= i < |results| ==> CollectAll(results).value[i] == results[i].value
    ensures CollectAll(results).Err? ==>
              exists i :: 0 <= i < |results| && results[i].Err?
                && CollectAll(results).error == results[i].error
                && forall j :: 0 <= j < i ==> results[j].Ok?
  {
    if results != [] {
      var init := results[..|results| - 1];
      CollectAllSpec(init);
      assert forall i :: 0 <= i < |init| ==> init[i] == results[i];
    }
  }

  /** `[datetime.strptime(t, '%d/%m/%Y') for t in oldindex]`: the first label that does not
      parse raises. */
  function ParseStabilisationDates(labels: seq<string>): Result<seq<Date>>
  {
    CollectAll(ParseEach(labels))
  }

  function ParseEach(labels: seq<string>): (rs: seq<Result<Date>>)
    ensures |rs| == |labels| && forall i :: 0 <= i < |labels| ==> rs[i] == Strptime(DayFirst, labels[i])
  {
    seq(|labels|, i requires 0 <= i < |labels| => Strptime(DayFirst, labels[i]))
  }

  /** Dates written day first, `DD/MM/YYYY`. */
  function DayFirstLabels(ds: seq<Date>): (labels: seq<string>)
    requires forall i :: 0 <= i < |ds| ==> ValidDate(ds[i])
    ensures |labels| == |ds| && forall i :: 0 <= i < |ds| ==> labels[i] == Strftime(DayFirst, ds[i])
  {
    seq(|ds|, i requires 0 <= i < |ds| => Strftime(DayFirst, ds[i]))
  }

  /** Dates written day first (`DD/MM/YYYY`) are read back as the same dates: the day is
      not mistaken for the month. */
  lemma StabilisationDatesRoundTrip(ds: seq<Date>)
    requires forall i :: 0 <= i < |ds| ==> ValidDate(ds[i])
    ensures ParseStabilisationDates(DayFirstLabels(ds)) == Ok(ds)
  {
    var labels := DayFirstLabels(ds);
    forall i | 0 <= i < |ds| ensures Strptime(DayFirst, labels[i]) == Ok(ds[i]) {
      DayFirstRoundTrip(ds[i]);
    }
    var results := ParseEach(labels);
    CollectAllSpec(results);
    assert forall i :: 0 <= i < |results| ==> results[i].Ok?;
    var r := CollectAll(results);
    assert r.Ok?;
    assert r.value == ds;
  }
}
