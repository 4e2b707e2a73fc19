/** The helpers behind the baptistery pages of the dashboard: the scale factor of the
    displacement plots, the prisms of a vertical section, the prisms of the floors, the
    prisms left unselected, the in-place sort of a section's prisms and the displaced
    coordinates of the 3-D view. Prism ids are the labels of the prism position table, in
    its row order. */
module BaptisteryPages {
  import opened Common
  import opened Frames

  // ---------------------------------------------------------------------------
  // scaleFactorCalc
  // ---------------------------------------------------------------------------

  function Pow10(e: nat): (p: real)
    ensures p >= 1.0
  {
    if e == 0 then 1.0 else 10.0 * Pow10(e - 1)
  }

  /** `10**exp`: an integer power for a non-negative exponent, a fraction otherwise. */
  function Power10(exp: int): (p: real)
    ensures p > 0.0
  {
    if exp >= 0 then Pow10(exp) else 1.0 / Pow10(-exp)
  }

  /** `factor*10**exp` */
  function ScaleFactor(exp: int, factor: real): real {
    factor * Power10(exp)
  }

  /** The exponent counts decimal places: a zero exponent leaves the factor as it is, and
      each step up multiplies the scale by ten. */
  lemma {:induction false} ScaleFactorSteps(exp: int, factor: real)
    ensures ScaleFactor(0, factor) == factor
    ensures ScaleFactor(exp + 1, factor) == 10.0 * ScaleFactor(exp, factor)
  {
    if exp < 0 {
      var k := -exp;
      assert Pow10(k) == 10.0 * Pow10(k - 1);
      if k == 1 {
        assert Power10(exp + 1) == 1.0;
        assert Power10(exp) == 1.0 / 10.0;
      } else {
        assert Power10(exp + 1) == 1.0 / Pow10(k - 1);
        assert Power10(exp) == 1.0 / (10.0 * Pow10(k - 1));
        assert 1.0 / Pow10(k - 1) == 10.0 * (1.0 / (10.0 * Pow10(k - 1)));
      }
    }
  }

  /** A negative exponent undoes the positive one. */
  lemma ScaleFactorInverse(exp: nat, factor: real)
    ensures ScaleFactor(-(exp as int), ScaleFactor(exp, factor)) == factor
  {
    if exp > 0 {
      assert Power10(-(exp as int)) == 1.0 / Pow10(exp);
    }
  }

  // ---------------------------------------------------------------------------
  // selectPrismSection
  // ---------------------------------------------------------------------------

  /** The twelve section keys "01".."12". */
  const SectionKeys: seq<string> := ["01", "02", "03", "04", "05", "06", "07", "08", "09", "10", "11", "12"]

  /** `full_section`: key k names the suffixes of the prisms at k and at the opposite
      side, k±6. */
  const FullSection: map<string, (string, string)> := map[
    "01" := ("01", "07"), "02" := ("02", "08"), "03" := ("03", "09"),
    "04" := ("04", "10"), "05" := ("05", "11"), "06" := ("06", "12"),
    "07" := ("07", "01"), "08" := ("08", "02"), "09" := ("09", "03"),
    "10" := ("10", "04"), "11" := ("11", "05"), "12" := ("12", "06")]

  /** `full_section[n]`; an unknown key is a KeyError. */
  function SectionSuffixes(n: string): (r: Result<(string, string)>)
    ensures r.Ok? <==> n in FullSection
    ensures r.Err? ==> r.error == KeyError(n)
  {
    if n in FullSection then Ok(FullSection[n]) else Err(KeyError(n))
  }

  /** The table pairs each key with itself and with the key six places away, and the key six
      places away with the first one again; it has no other key. */
  lemma SectionSuffixesPair(k: nat)
    requires k < 12
    ensures SectionSuffixes(SectionKeys[k]) == Ok((SectionKeys[k], SectionKeys[(k + 6) % 12]))
    ensures SectionSuffixes(SectionKeys[(k + 6) % 12]) == Ok((SectionKeys[(k + 6) % 12], SectionKeys[k]))
  {
  }

  /** `[p for p in index if p.endswith(suffix) and not p.startswith('1')]` */
  function Ending(index: seq<string>, suffix: string): (r: seq<string>)
    decreases |index|
  {
    if index == [] then []
    else
      var p := index[|index| - 1];
      Ending(index[..|index| - 1], suffix) + (if EndsWith(p, suffix) && !StartsWith(p, "1") then [p] else [])
  }

  /** The prisms kept are exactly those of the index that end with the suffix and are not
      in the 1xx series, in the index's order. */
  lemma {:induction false} EndingSpec(index: seq<string>, suffix: string, p: string)
    ensures p in Ending(index, suffix) <==> p in index && EndsWith(p, suffix) && !StartsWith(p, "1")
  {
    if index != [] {
      var init := index[..|index| - 1];
      EndingSpec(init, suffix, p);
      assert index == init + [index[|index| - 1]];
    }
  }

  /** Order is kept: the prisms of two consecutive parts of the index are those of the first
      part followed by those of the second. */
  lemma {:induction false} EndingAppend(a: seq<string>, b: seq<string>, suffix: string)
    ensures Ending(a + b, suffix) == Ending(a, suffix) + Ending(b, suffix)
    decreases |b|
  {
    if b == [] {
      assert a + b == a;
    } else {
      var init := b[..|b| - 1];
      EndingAppend(a, init, suffix);
      assert (a + b)[..|a + b| - 1] == a + init;
    }
  }

  function SelectPrismSection(index: seq<string>, n: string): (r: Result<seq<string>>)
    ensures r.Ok? <==> n in FullSection
  {
    match SectionSuffixes(n)
    case Err(e) => Err(e)
    case Ok((first, second)) => Ok(Ending(index, first) + Ending(index, second))
  }

  /** A section lists the prisms of its own side, then those of the opposite side; a prism
      is listed exactly when it ends with either suffix and is not in the 1xx series. */
  lemma SelectPrismSectionSpec(index: seq<string>, k: nat, p: string)
    requires k < 12
    ensures var a, b := SectionKeys[k], SectionKeys[(k + 6) % 12];
            && SelectPrismSection(index, a) == Ok(Ending(index, a) + Ending(index, b))
            && (p in SelectPrismSection(index, a).value <==>
                  p in index && !StartsWith(p, "1") && (EndsWith(p, a) || EndsWith(p, b)))
  {
    SectionSuffixesPair(k);
    EndingSpec(index, SectionKeys[k], p);
    EndingSpec(index, SectionKeys[(k + 6) % 12], p);
  }

  /** The two keys of a section pair select the same prisms, in the opposite group order. */
  lemma OppositeSectionsAgree(index: seq<string>, k: nat, p: string)
    requires k < 12
    ensures var a, b := SectionKeys[k], SectionKeys[(k + 6) % 12];
            && SelectPrismSection(index, a).Ok? && SelectPrismSection(index, b).Ok?
            && (p in SelectPrismSection(index, a).value <==> p in SelectPrismSection(index, b).value)
  {
    SectionSuffixesPair(k);
    EndingSpec(index, SectionKeys[k], p);
    EndingSpec(index, SectionKeys[(k + 6) % 12], p);
  }

  // ---------------------------------------------------------------------------
  // Floors
  // ---------------------------------------------------------------------------

  /** Every prism id has a first character (`i[0]` raises on an empty one). */
  predicate IdsNonEmpty(index: seq<string>) {
    forall k :: 0 <= k < |index| ==> index[k] != []
  }

  const GroundFloor: seq<string> := ["101", "102", "103", "104", "P1"]

  /** The prisms whose id starts with one of two digits, in index order. */
  function Storey(index: seq<string>, low: char, high: char): (r: seq<string>)
    requires IdsNonEmpty(index)
    ensures forall p :: p in r <==> p in index && (p[0] == low || p[0] == high)
    decreases |index|
  {
    if index == [] then []
    else
      var p := index[|index| - 1];
      assert forall q :: q in index <==> q in index[..|index| - 1] || q == p;
      Storey(index[..|index| - 1], low, high) + (if p[0] == low || p[0] == high then [p] else [])
  }

  function FirstFloor(index: seq<string>): seq<string>
    requires IdsNonEmpty(index)
  {
    Storey(index, '2', '3')
  }

  function SecondFloor(index: seq<string>): seq<string>
    requires IdsNonEmpty(index)
  {
    Storey(index, '4', '5')
  }

  /** The three floors of the selection figure: the ground floor is a fixed list, the first
      floor the 2xx and 3xx prisms, the second the 4xx and 5xx prisms; no prism is on two
      floors. */
  lemma FloorsSeparate(index: seq<string>, p: string)
    requires IdsNonEmpty(index)
    ensures p in FirstFloor(index) <==> p in index && (p[0] == '2' || p[0] == '3')
    ensures p in SecondFloor(index) <==> p in index && (p[0] == '4' || p[0] == '5')
    ensures !(p in FirstFloor(index) && p in SecondFloor(index))
    ensures p in GroundFloor ==> p !in FirstFloor(index) && p !in SecondFloor(index)
  {
  }

  /** The prisms of the plan view for the chosen floors, or None when no floor is chosen
      (the figure is returned empty). "First" gives the first floor, followed by the second
      if "Second" is chosen too; any other non-empty choice gives the second floor. */
  function FloorSelection(index: seq<string>, floor: seq<string>): Option<seq<string>>
    requires IdsNonEmpty(index)
  {
    if floor == [] then None
    else if "First" in floor then
      Some(FirstFloor(index) + if "Second" in floor then SecondFloor(index) else [])
    else Some(SecondFloor(index))
  }

  lemma FloorSelectionSpec(index: seq<string>, floor: seq<string>, p: string)
    requires IdsNonEmpty(index)
    ensures FloorSelection(index, floor).None? <==> floor == []
    ensures FloorSelection(index, floor).Some? ==>
              (p in FloorSelection(index, floor).value <==>
                 p in index &&
                 (("First" in floor && (p[0] == '2' || p[0] == '3'))
                  || (("Second" in floor || "First" !in floor) && (p[0] == '4' || p[0] == '5'))))
  {
    FloorsSeparate(index, p);
  }

  // ---------------------------------------------------------------------------
  // Unselected prisms
  // ---------------------------------------------------------------------------

  /** `[el for el in index if el not in selected and el[0] != '1']`: `el[0]` is only
      evaluated for an id outside the selection, and raises IndexError when that id is
      empty. */
  function Unselected(index: seq<string>, selected: seq<string>): (r: Result<seq<string>>)
    ensures r.Ok? <==> forall i :: 0 <= i < |index| && index[i] !in selected ==> index[i] != []
    ensures r.Err? ==> r.error == IndexError("string index out of range")
    decreases |index|
  {
    if index == [] then Ok([])
    else
      var init := index[..|index| - 1];
      var p := index[|index| - 1];
      var rest := Unselected(init, selected);
      assert forall i :: 0 <= i < |init| ==> init[i] == index[i];
      if rest.Err? then rest
      else if p in selected then rest
      else if p == [] then Err(IndexError("string index out of range"))
      else Ok(rest.value + (if p[0] != '1' then [p] else []))
  }

  /** The unselected prisms are the prisms of the index outside the selection and outside
      the 1xx series: together with the selection they cover every such prism, and they
      never overlap it. */
  lemma {:induction false} UnselectedSpec(index: seq<string>, selected: seq<string>, p: string)
    requires Unselected(index, selected).Ok?
    ensures p in Unselected(index, selected).value <==>
      p in index && p !in selected && |p| > 0 && p[0] != '1'
  {
    if index != [] {
      var init := index[..|index| - 1];
      assert index == init + [index[|index| - 1]];
      UnselectedSpec(init, selected, p);
    }
  }

  // ---------------------------------------------------------------------------
  // selected_prisms.sort()
  // ---------------------------------------------------------------------------

  /** Python's string order: code point by code point, a proper prefix first. */
  predicate LexLe(a: string, b: string)
    decreases |a|
  {
    a == [] || (b != [] && (a[0] < b[0] || (a[0] == b[0] && LexLe(a[1..], b[1..]))))
  }

  lemma {:induction false} LexTotal(a: string, b: string)
    ensures LexLe(a, b) || LexLe(b, a)
    decreases |a|
  {
    if a != [] && b != [] && a[0] == b[0] {
      LexTotal(a[1..], b[1..]);
    }
  }

  lemma {:induction false} LexTrans(a: string, b: string, c: string)
    requires LexLe(a, b) && LexLe(b, c)
    ensures LexLe(a, c)
    decreases |a|
  {
    if a != [] && a[0] == b[0] && b[0] == c[0] {
      LexTrans(a[1..], b[1..], c[1..]);
    }
  }

  lemma {:induction false} LexAntisymmetric(a: string, b: string)
    requires LexLe(a, b) && LexLe(b, a)
    ensures a == b
    decreases |a|
  {
    if a != [] {
      LexAntisymmetric(a[1..], b[1..]);
      assert a == [a[0]] + a[1..] && b == [b[0]] + b[1..];
    }
  }

  lemma {:induction false} LexReflexive(a: string)
    ensures LexLe(a, a)
    decreases |a|
  {
    if a != [] {
      LexReflexive(a[1..]);
    }
  }

  predicate Sorted(s: seq<string>) {
    forall i, j :: 0 <= i < j < |s| ==> LexLe(s[i], s[j])
  }

  /** `selected_prisms.sort()`: the caller's list, sorted in place. */
  method SortPrisms(a: array<string>)
    modifies a
    ensures Sorted(a[..])
    ensures multiset(a[..]) == multiset(old(a[..]))
  {
    var i := 0;
    while i < a.Length
      invariant 0 <= i <= a.Length
      invariant Sorted(a[..i])
      invariant multiset(a[..]) == multiset(old(a[..]))
    {
      InsertLast(a, i);
      i := i + 1;
    }
    assert a[..a.Length] == a[..];
  }

  /** Moves `a[i]` down into the sorted prefix `a[..i]`, by swaps. */
  method InsertLast(a: array<string>, i: nat)
    requires i < a.Length && Sorted(a[..i])
    modifies a
    ensures Sorted(a[..i + 1])
    ensures multiset(a[..]) == multiset(old(a[..]))
  {
    var j: nat := i;
    InsertingStart(a[..], i);
    while j > 0 && !LexLe(a[j - 1], a[j])
      invariant j <= i < a.Length
      invariant Inserting(a[..], j, i)
      invariant multiset(a[..]) == multiset(old(a[..]))
    {
      InsertingStep(a[..], j, i);
      Swap(a, j - 1, j);
      j := j - 1;
    }
    InsertingDone(a[..], j, i);
  }

  /** While `s[j]` moves down: the part before it and the part after it are sorted, the
      part before lies below the part after, and `s[j]` lies below the part after. */
  predicate Inserting(s: seq<string>, j: nat, i: nat)
    requires j <= i < |s|
  {
    && (forall p, q :: 0 <= p < q < j ==> LexLe(s[p], s[q]))
    && (forall p, q :: j < p < q <= i ==> LexLe(s[p], s[q]))
    && (forall p, q :: 0 <= p < j < q <= i ==> LexLe(s[p], s[q]))
    && (forall q :: j < q <= i ==> LexLe(s[j], s[q]))
  }

  lemma InsertingStart(s: seq<string>, i: nat)
    requires i < |s| && Sorted(s[..i])
    ensures Inserting(s, i, i)
  {
    assert forall p :: 0 <= p < i ==> s[..i][p] == s[p];
  }

  lemma InsertingStep(s: seq<string>, j: nat, i: nat)
    requires 0 < j <= i < |s| && Inserting(s, j, i) && !LexLe(s[j - 1], s[j])
    ensures Inserting(s[j - 1 := s[j]][j := s[j - 1]], j - 1, i)
  {
    LexTotal(s[j - 1], s[j]);
  }

  lemma InsertingDone(s: seq<string>, j: nat, i: nat)
    requires j <= i < |s| && Inserting(s, j, i) && (j == 0 || LexLe(s[j - 1], s[j]))
    ensures Sorted(s[..i + 1])
  {
    forall p | 0 <= p < j - 1
      ensures LexLe(s[p], s[j])
    {
      LexTrans(s[p], s[j - 1], s[j]);
    }
    assert forall p :: 0 <= p <= i ==> s[..i + 1][p] == s[p];
  }

  method Swap(a: array<string>, i: nat, j: nat)
    requires i < j < a.Length
    modifies a
    ensures a[..] == old(a[..])[i := old(a[j])][j := old(a[i])]
    ensures multiset(a[..]) == multiset(old(a[..]))
  {
    a[i], a[j] := a[j], a[i];
  }

  /** The sorted order is unique: any two sorted arrangements of the same prisms agree, so
      the in-place sort gives exactly Python's sorted list. */
  lemma {:induction false} SortedUnique(s: seq<string>, t: seq<string>)
    requires Sorted(s) && Sorted(t) && multiset(s) == multiset(t)
    ensures s == t
    decreases |s|
  {
    assert |multiset(s)| == |s| && |multiset(t)| == |t|;
    if s != [] {
      assert s[0] in multiset(t) && t[0] in multiset(s);
      SortedHeadLeast(s, t[0]);
      SortedHeadLeast(t, s[0]);
      LexAntisymmetric(s[0], t[0]);
      SameTail(s, t);
      SortedTail(s);
      SortedTail(t);
      SortedUnique(s[1..], t[1..]);
      assert s == [s[0]] + s[1..] && t == [t[0]] + t[1..];
    }
  }

  lemma SortedHeadLeast(s: seq<string>, x: string)
    requires Sorted(s) && x in s
    ensures LexLe(s[0], x)
  {
    var j :| 0 <= j < |s| && s[j] == x;
    if j == 0 {
      LexReflexive(x);
    }
  }

  lemma SameTail(s: seq<string>, t: seq<string>)
    requires s != [] && t != [] && s[0] == t[0] && multiset(s) == multiset(t)
    ensures multiset(s[1..]) == multiset(t[1..])
  {
    assert s == [s[0]] + s[1..] && t == [t[0]] + t[1..];
    assert multiset(s[1..]) == multiset(s) - multiset([s[0]]);
    assert multiset(t[1..]) == multiset(t) - multiset([t[0]]);
  }

  lemma SortedTail(s: seq<string>)
    requires Sorted(s) && s != []
    ensures Sorted(s[1..])
  {
    assert forall k :: 0 <= k < |s| - 1 ==> s[1..][k] == s[k + 1];
  }

  // ---------------------------------------------------------------------------
  // figurePrism3d
  // ---------------------------------------------------------------------------

  /** The connectivity rows kept without the zero floor: 1 to 4 and 9 to 32. */
  function ConnRowsKept(): (rows: seq<nat>)
    ensures |rows| == 28 && rows[27] == 32
    ensures forall k :: 0 <= k < 4 ==> rows[k] == k + 1
    ensures forall k :: 4 <= k < 28 ==> rows[k] == k + 5
  {
    [1, 2, 3, 4] + seq(24, k requires 0 <= k < 24 => 9 + k)
  }

  /** `conn_matrix.iloc[rows]`: positional selection, an IndexError past the end. */
  function PickRows<T>(conn: seq<T>, rows: seq<nat>): (r: Result<seq<T>>)
    ensures r.Ok? <==> forall k :: 0 <= k < |rows| ==> rows[k] < |conn|
    ensures r.Ok? ==> |r.value| == |rows| && forall k :: 0 <= k < |rows| ==> r.value[k] == conn[rows[k]]
    decreases |rows|
  {
    if rows == [] then Ok([])
    else if rows[0] >= |conn| then Err(IndexError("positional indexers are out-of-bounds"))
    else match PickRows(conn, rows[1..])
      case Err(e) => Err(e)
      case Ok(rest) => Ok([conn[rows[0]]] + rest)
  }

  /** The prism table and the connectivity matrix of the 3-D view: unchanged with the zero
      floor, otherwise without the first 12 columns (the zero-floor prisms' coordinates) and
      with connectivity rows 1–4 and 9–32 only. */
  function Prune3d<R, C, T>(f: Frame<R, C>, conn: seq<T>, zeroFloor: bool): (r: Result<(Frame<R, C>, seq<T>)>)
    requires WellFormed(f)
    ensures r.Ok? ==> WellFormed(r.value.0) && r.value.0.index == f.index
    ensures zeroFloor ==> r == Ok((f, conn))
    ensures !zeroFloor ==> (r.Ok? <==> 33 <= |conn|)
    ensures !zeroFloor && r.Ok? ==>
              r.value.0 == DropFirstColumns(f, 12) && |r.value.1| == 28
              && r.value.1[..4] == conn[1..5] && r.value.1[4..] == conn[9..33]
  {
    if zeroFloor then Ok((f, conn))
    else
      var rows := ConnRowsKept();
      match PickRows(conn, rows)
      case Err(e) => Err(e)
      case Ok(kept) =>
        KeptConnRows(conn, rows, kept);
        Ok((DropFirstColumns(f, 12), kept))
  }

  /** Rows 1 to 4 and 9 to 32 of a matrix, picked in order. */
  lemma KeptConnRows<T>(conn: seq<T>, rows: seq<nat>, kept: seq<T>)
    requires |rows| == 28 && rows[27] == 32
    requires forall k :: 0 <= k < 4 ==> rows[k] == k + 1
    requires forall k :: 4 <= k < 28 ==> rows[k] == k + 5
    requires |kept| == 28 && forall k :: 0 <= k < 28 ==> rows[k] < |conn| && kept[k] == conn[rows[k]]
    ensures 33 <= |conn| && kept[..4] == conn[1..5] && kept[4..] == conn[9..33]
  {
  }

  /** One displaced coordinate: the displacement from the start value, scaled, added back to
      the start value; NaN stays NaN. */
  function Displaced(v: Cell, start: Cell, s: real): Cell {
    if v.Some? && start.Some? then Some((v.value - start.value) * s + start.value) else None
  }

  /** The displaced end row of the 3-D view: the rows from the start date onwards
      (`loc[dates[0]:]`), each displaced from the start row; the row of the end date among
      them. Dates are taken by position in a unique, ascending index; a position past the
      table is an IndexError and an end before the start is missing from the rows taken
      (KeyError). */
  function DisplacedEnd<R, C>(f: Frame<R, C>, d0: nat, d1: nat, s: real): (r: Result<seq<Cell>>)
    requires WellFormed(f)
    ensures r.Ok? <==> d0 < |f.index| && d1 < |f.index| && d0 <= d1
    ensures r.Ok? ==> |r.value| == |f.columns|
  {
    if d0 >= |f.index| || d1 >= |f.index| then Err(IndexError("index out of bounds"))
    else if d1 < d0 then Err(KeyError("end date"))
    else
      var start := f.cells[d0];
      Ok(seq(|f.columns|, k requires 0 <= k < |f.columns| => Displaced(f.cells[d1][k], start[k], s)))
  }

  /** The displacement is measured from the start row: ending on the start date shows the
      start coordinates, a unit scale shows the measured end coordinates and a zero scale
      shows no displacement at all. */
  lemma DisplacedEndSpec<R, C>(f: Frame<R, C>, d0: nat, d1: nat, s: real)
    requires WellFormed(f) && d0 <= d1 < |f.index|
    ensures d0 == d1 ==> DisplacedEnd(f, d0, d1, s).value == f.cells[d0]
    ensures s == 1.0 ==> DisplacedEnd(f, d0, d1, s).value == Both(f.cells[d1], f.cells[d0])
    ensures s == 0.0 ==> DisplacedEnd(f, d0, d1, s).value == Both(f.cells[d0], f.cells[d1])
  {
  }

  /** The cells of `row` where `other` is present too, NaN elsewhere. */
  function Both(row: seq<Cell>, other: seq<Cell>): (r: seq<Cell>)
    requires |row| == |other|
    ensures |r| == |row|
    ensures forall k :: 0 <= k < |row| ==> r[k] == if other[k].Some? then row[k] else None
  {
    seq(|row|, k requires 0 <= k < |row| => if other[k].Some? then row[k] else None)
  }

}
