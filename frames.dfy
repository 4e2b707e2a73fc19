/** pandas DataFrames as values: row labels, column labels and a rectangular grid of
    cells, each a float or NaN. Only the operations the core uses are modelled:
    transposition, row concatenation (`pd.concat`), boolean row selection (`df[mask]`)
    and column selection by membership (`df.loc[:, df.columns.isin(names)]`). */
module Frames {
  import opened Common

  /** A cell holds a float, or None for NaN / missing. */
  type Cell = Option<real>

  datatype Frame<R, C> = Frame(index: seq<R>, columns: seq<C>, cells: seq<seq<Cell>>)

  /** One cell list per row label, one cell per column label. */
  predicate WellFormed<R, C>(f: Frame<R, C>) {
    |f.cells| == |f.index| && forall r :: 0 <= r < |f.cells| ==> |f.cells[r]| == |f.columns|
  }

  // ---------------------------------------------------------------------------
  // df.T
  // ---------------------------------------------------------------------------

  function Transpose<R, C>(f: Frame<R, C>): (t: Frame<C, R>)
    requires WellFormed(f)
    ensures WellFormed(t) && t.index == f.columns && t.columns == f.index
  {
    Frame(f.columns, f.index,
          seq(|f.columns|, i requires 0 <= i < |f.columns| =>
            seq(|f.index|, j requires 0 <= j < |f.index| => f.cells[j][i])))
  }

  /** Transposition mirrors the grid. */
  lemma TransposeCells<R, C>(f: Frame<R, C>, i: nat, j: nat)
    requires WellFormed(f) && i < |f.columns| && j < |f.index|
    ensures Transpose(f).cells[i][j] == f.cells[j][i]
  {
  }

  /** Transposing twice gives back the frame. */
  lemma TransposeTwice<R, C>(f: Frame<R, C>)
    requires WellFormed(f)
    ensures Transpose(Transpose(f)) == f
  {
    var t := Transpose(Transpose(f));
    assert |t.cells| == |f.cells|;
    forall r | 0 <= r < |f.cells|
      ensures t.cells[r] == f.cells[r]
    {
    }
  }

  // ---------------------------------------------------------------------------
  // pd.concat([a, b]) along the rows, outer join on the columns, sort=False
  // ---------------------------------------------------------------------------

  /** The elements of `b` that are not in `a`, in `b`'s order. */
  function Missing<C(==)>(b: seq<C>, a: seq<C>): seq<C>
  {
    if b == [] then []
    else (if b[0] in a then [] else [b[0]]) + Missing(b[1..], a)
  }

  lemma {:induction false} MissingMember<C>(b: seq<C>, a: seq<C>, c: C)
    ensures c in Missing(b, a) <==> c in b && c !in a
  {
    if b != [] {
      MissingMember(b[1..], a, c);
      assert b == [b[0]] + b[1..];
    }
  }

  /** The cells of `row`, laid out under `from`, re-laid under `to`; a column of `to` that
      `from` lacks becomes NaN. */
  function Realign<C(==)>(row: seq<Cell>, from: seq<C>, to: seq<C>): (r: seq<Cell>)
    requires |row| == |from|
    ensures |r| == |to|
  {
    seq(|to|, k requires 0 <= k < |to| =>
      if to[k] in from then row[FirstIndex(from, to[k])] else None)
  }

  /** The value in row `r` under column label `c` (the first such column), NaN if absent. */
  function CellAt<R, C(==)>(f: Frame<R, C>, r: nat, c: C): Cell
    requires WellFormed(f) && r < |f.index|
  {
    if c in f.columns then f.cells[r][FirstIndex(f.columns, c)] else None
  }

  /** `pd.concat([a, b])`. Identical column lists are stacked as they are; otherwise the
      columns are the union in order of appearance, and pandas refuses to align a frame
      whose column labels repeat. */
  function ConcatRows<R, C(==)>(a: Frame<R, C>, b: Frame<R, C>): Result<Frame<R, C>>
    requires WellFormed(a) && WellFormed(b)
  {
    if a.columns == b.columns then
      Ok(Frame(a.index + b.index, a.columns, a.cells + b.cells))
    else if !Distinct(a.columns) || !Distinct(b.columns) then
      Err(InvalidIndexError("Reindexing only valid with uniquely valued Index objects"))
    else
      var cols := a.columns + Missing(b.columns, a.columns);
      Ok(Frame(a.index + b.index, cols,
               seq(|a.cells|, i requires 0 <= i < |a.cells| => Realign(a.cells[i], a.columns, cols))
               + seq(|b.cells|, i requires 0 <= i < |b.cells| => Realign(b.cells[i], b.columns, cols))))
  }

  /** `pd.concat` fails exactly on repeated labels in differing column lists, and
      otherwise stacks the rows of `a` above those of `b`. */
  lemma ConcatRowsOutcome<R, C>(a: Frame<R, C>, b: Frame<R, C>)
    requires WellFormed(a) && WellFormed(b)
    ensures ConcatRows(a, b).Err? <==>
              a.columns != b.columns && !(Distinct(a.columns) && Distinct(b.columns))
    ensures ConcatRows(a, b).Ok? ==>
              WellFormed(ConcatRows(a, b).value)
              && ConcatRows(a, b).value.index == a.index + b.index
  {
  }

  /** For every column label `c`: the result has a column `c` exactly when `a` or `b` has
      one, and each row keeps under `c` the value it had in its own frame (NaN where its
      frame lacked the column). Distinct labels stay distinct. */
  lemma {:induction false} ConcatRowsColumn<R, C>(a: Frame<R, C>, b: Frame<R, C>, c: C)
    requires WellFormed(a) && WellFormed(b)
    ensures ConcatRows(a, b).Ok? ==>
      var f := ConcatRows(a, b).value;
      && (c in f.columns <==> c in a.columns || c in b.columns)
      && (forall i :: 0 <= i < |a.index| ==> CellAt(f, i, c) == CellAt(a, i, c))
      && (forall i :: 0 <= i < |b.index| ==> CellAt(f, |a.index| + i, c) == CellAt(b, i, c))
      && (Distinct(a.columns) && Distinct(b.columns) ==> Distinct(f.columns))
  {
    if ConcatRows(a, b).Ok? && a.columns != b.columns {
      MissingMember(b.columns, a.columns, c);
      ConcatUpperRows(a, b, c);
      ConcatLowerRows(a, b, c);
      UnionDistinct(a.columns, b.columns);
    }
  }

  /** When the column lists differ, the rows of `a` keep their values under the union. */
  lemma ConcatUpperRows<R, C>(a: Frame<R, C>, b: Frame<R, C>, c: C)
    requires WellFormed(a) && WellFormed(b) && a.columns != b.columns
    requires Distinct(a.columns) && Distinct(b.columns)
    ensures forall i :: 0 <= i < |a.index| ==> CellAt(ConcatRows(a, b).value, i, c) == CellAt(a, i, c)
  {
    var f := ConcatRows(a, b).value;
    var cols := a.columns + Missing(b.columns, a.columns);
    forall i | 0 <= i < |a.index|
      ensures CellAt(f, i, c) == CellAt(a, i, c)
    {
      assert f.cells[i] == Realign(a.cells[i], a.columns, cols);
    }
  }

  /** When the column lists differ, the rows of `b` keep their values under the union. */
  lemma ConcatLowerRows<R, C>(a: Frame<R, C>, b: Frame<R, C>, c: C)
    requires WellFormed(a) && WellFormed(b) && a.columns != b.columns
    requires Distinct(a.columns) && Distinct(b.columns)
    ensures forall i :: 0 <= i < |b.index| ==> CellAt(ConcatRows(a, b).value, |a.index| + i, c) == CellAt(b, i, c)
  {
    var f := ConcatRows(a, b).value;
    var cols := a.columns + Missing(b.columns, a.columns);
    MissingMember(b.columns, a.columns, c);
    forall i | 0 <= i < |b.index|
      ensures CellAt(f, |a.index| + i, c) == CellAt(b, i, c)
    {
      assert f.cells[|a.index| + i] == Realign(b.cells[i], b.columns, cols);
    }
  }

  /** The union of two lists without repeats has no repeats. */
  lemma UnionDistinct<C>(a: seq<C>, b: seq<C>)
    requires Distinct(a) && Distinct(b)
    ensures Distinct(a + Missing(b, a))
  {
    var m := Missing(b, a);
    var cols := a + m;
    MissingDistinct(b, a);
    forall p, q | 0 <= p < q < |cols|
      ensures cols[p] != cols[q]
    {
      if p < |a| <= q {
        MissingMember(b, a, cols[q]);
        assert cols[q] == m[q - |a|];
      } else if |a| <= p {
        assert cols[p] == m[p - |a|] && cols[q] == m[q - |a|];
      }
    }
  }

  lemma {:induction false} MissingDistinct<C>(b: seq<C>, a: seq<C>)
    requires Distinct(b)
    ensures Distinct(Missing(b, a))
  {
    if b != [] {
      MissingDistinct(b[1..], a);
      MissingMember(b[1..], a, b[0]);
    }
  }

  lemma DistinctFirstIndex<C>(s: seq<C>, k: nat)
    requires Distinct(s) && k < |s|
    ensures FirstIndex(s, s[k]) == k
  {
  }

  // ---------------------------------------------------------------------------
  // df[mask]: boolean row selection
  // ---------------------------------------------------------------------------

  /** The positions where `mask` is true, ascending. */
  function TruePositions(mask: seq<bool>): (ps: seq<nat>)
    ensures forall k :: 0 <= k < |ps| ==> ps[k] < |mask|
  {
    if mask == [] then []
    else
      var init := TruePositions(mask[..|mask| - 1]);
      if mask[|mask| - 1] then init + [|mask| - 1] else init
  }

  /** The selected positions are exactly the true ones, each once, in ascending order. */
  lemma {:induction false} TruePositionsSpec(mask: seq<bool>)
    ensures forall k, l :: 0 <= k < l < |TruePositions(mask)| ==>
              TruePositions(mask)[k] < TruePositions(mask)[l]
    ensures forall p :: p in TruePositions(mask) <==> 0 <= p < |mask| && mask[p]
  {
    if mask != [] {
      TruePositionsSpec(mask[..|mask| - 1]);
    }
  }

  function SelectRows<R, C>(f: Frame<R, C>, mask: seq<bool>): (g: Frame<R, C>)
    requires WellFormed(f) && |mask| == |f.index|
    ensures WellFormed(g) && g.columns == f.columns
  {
    var ps := TruePositions(mask);
    Frame(seq(|ps|, k requires 0 <= k < |ps| => f.index[ps[k]]),
          f.columns,
          seq(|ps|, k requires 0 <= k < |ps| => f.cells[ps[k]]))
  }

  /** Boolean selection keeps exactly the rows whose mask entry is true, unchanged and in
      their original order. */
  lemma SelectRowsSpec<R, C>(f: Frame<R, C>, mask: seq<bool>)
    requires WellFormed(f) && |mask| == |f.index|
    ensures var g := SelectRows(f, mask);
            var ps := TruePositions(mask);
            && |g.index| == |ps|
            && (forall k :: 0 <= k < |ps| ==>
                  g.index[k] == f.index[ps[k]] && g.cells[k] == f.cells[ps[k]])
            && (forall k, l :: 0 <= k < l < |ps| ==> ps[k] < ps[l])
            && (forall p :: p in ps <==> 0 <= p < |mask| && mask[p])
  {
    TruePositionsSpec(mask);
  }

  // ---------------------------------------------------------------------------
  // df.loc[:, df.columns.isin(names)]
  // ---------------------------------------------------------------------------

  /** `cols.isin(names)` */
  function IsIn<C(==)>(cols: seq<C>, names: seq<C>): (mask: seq<bool>)
    ensures |mask| == |cols| && forall j :: 0 <= j < |cols| ==> mask[j] == (cols[j] in names)
  {
    seq(|cols|, j requires 0 <= j < |cols| => cols[j] in names)
  }

  function KeptColumns<C(==)>(cols: seq<C>, names: seq<C>): (ps: seq<nat>)
    ensures forall k :: 0 <= k < |ps| ==> ps[k] < |cols|
  {
    TruePositions(IsIn(cols, names))
  }

  function FilterColumns<R, C(==)>(f: Frame<R, C>, names: seq<C>): (g: Frame<R, C>)
    requires WellFormed(f)
    ensures WellFormed(g) && g.index == f.index
  {
    var ps := KeptColumns(f.columns, names);
    Frame(f.index,
          seq(|ps|, k requires 0 <= k < |ps| => f.columns[ps[k]]),
          seq(|f.cells|, r requires 0 <= r < |f.cells| =>
            seq(|ps|, k requires 0 <= k < |ps| => f.cells[r][ps[k]])))
  }

  /** Column selection by membership keeps exactly the columns named in `names`, in the
      frame's own order (not the order of `names`), with their cells, and every row. */
  lemma FilterColumnsSpec<R, C>(f: Frame<R, C>, names: seq<C>)
    requires WellFormed(f)
    ensures var g := FilterColumns(f, names);
            var ps := KeptColumns(f.columns, names);
            && g.index == f.index
            && (forall k, l :: 0 <= k < l < |ps| ==> ps[k] < ps[l])
            && (forall p :: p in ps <==> 0 <= p < |f.columns| && f.columns[p] in names)
            && (forall k :: 0 <= k < |ps| ==> g.columns[k] == f.columns[ps[k]])
            && (forall r, k :: 0 <= r < |f.index| && 0 <= k < |ps| ==> g.cells[r][k] == f.cells[r][ps[k]])
  {
    TruePositionsSpec(IsIn(f.columns, names));
  }

  // ---------------------------------------------------------------------------
  // df.iloc[:, n:] and df[names]
  // ---------------------------------------------------------------------------

  /** `df.iloc[:, n:]`: every column from position n on. */
  function DropFirstColumns<R, C>(f: Frame<R, C>, n: nat): (g: Frame<R, C>)
    requires WellFormed(f)
    ensures WellFormed(g) && g.index == f.index
    ensures |f.columns| <= n ==> g.columns == []
    ensures n < |f.columns| ==> g.columns == f.columns[n..]
    ensures forall r, k :: 0 <= r < |f.index| && n <= k < |f.columns| ==> g.cells[r][k - n] == f.cells[r][k]
  {
    var m := if n < |f.columns| then n else |f.columns|;
    Frame(f.index, f.columns[m..], seq(|f.cells|, r requires 0 <= r < |f.cells| => f.cells[r][m..]))
  }

  /** `df[names]`: the named columns in the order asked for; a name the frame lacks is a
      KeyError. Column labels are taken to be unique. */
  function SelectColumns<R, C(==)>(f: Frame<R, C>, names: seq<C>): (r: Result<Frame<R, C>>)
    requires WellFormed(f)
    ensures r.Ok? <==> forall k :: 0 <= k < |names| ==> names[k] in f.columns
    ensures r.Ok? ==> WellFormed(r.value) && r.value.index == f.index && r.value.columns == names
    ensures r.Ok? ==> forall i, k :: 0 <= i < |f.index| && 0 <= k < |names| ==>
                        r.value.cells[i][k] == CellAt(f, i, names[k])
  {
    if forall k :: 0 <= k < |names| ==> names[k] in f.columns then
      Ok(Frame(f.index, names, seq(|f.cells|, i requires 0 <= i < |f.cells| =>
        seq(|names|, k requires 0 <= k < |names| => CellAt(f, i, names[k])))))
    else Err(KeyError("not in index"))
  }
}
