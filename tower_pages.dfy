/** The helpers behind the tower pages of the dashboard: the benchmark sections of the
    levelling tab, the assembly of the static-monitoring tables from the yearly files, the
    unit of a static sensor and the interquartile outlier filter. */
module TowerPages {
  import opened Common
  import opened Frames
  import TowerStatic

  // ---------------------------------------------------------------------------
  // selectBenchSection
  // ---------------------------------------------------------------------------

  const Section01: seq<string> := ["E2", "I2", "904", "102", "106", "911", "I6", "E6"]
  const Section02: seq<string> := ["E3", "I3", "906", "103", "107", "913", "I7", "E7"]
  const Section03: seq<string> := ["E4", "I4", "908", "104", "108", "915", "I8", "E8"]
  const Section04: seq<string> := ["E5", "I5", "910", "105", "101", "902", "I1", "E1"]

  /** The benchmarks of one of the four vertical sections of the tower; any other key is
      missing from the section table. */
  function SelectBenchSection(n: string): (r: Result<seq<string>>)
    ensures r.Ok? <==> n == "01" || n == "02" || n == "03" || n == "04"
    ensures r.Err? ==> r.error == KeyError(n)
    ensures r.Ok? ==> |r.value| == 8
  {
    if n == "01" then Ok(Section01)
    else if n == "02" then Ok(Section02)
    else if n == "03" then Ok(Section03)
    else if n == "04" then Ok(Section04)
    else Err(KeyError(n))
  }

  /** Each section lists eight different benchmarks, and two different sections share none:
      the four sections split 32 benchmarks. */
  lemma BenchSectionsPartition(n: string, m: string)
    requires SelectBenchSection(n).Ok? && SelectBenchSection(m).Ok? && n != m
    ensures Distinct(SelectBenchSection(n).value)
    ensures forall b :: b in SelectBenchSection(n).value ==> b !in SelectBenchSection(m).value
  {
  }

  // ---------------------------------------------------------------------------
  // merge_and_filter_dataframe
  // ---------------------------------------------------------------------------

  /** The table-name prefix of a resample mode. */
  function ResamplePrefix(resample: string): (r: Result<string>)
    ensures r.Ok? <==> resample in ["hourly", "daily", "weekly", "monthly"]
    ensures r.Ok? ==> r.value == [UpperChar(resample[0]), '_']
  {
    if resample == "daily" then Ok("D_")
    else if resample == "hourly" then Ok("H_")
    else if resample == "weekly" then Ok("W_")
    else if resample == "monthly" then Ok("M_")
    else Err(ValueError("Invalid resample type. Choose from 'daily', 'hourly', 'weekly', 'monthly'."))
  }

  /** `int(date[:4])` */
  function YearOf(date: string): Result<int> {
    ParseInt(if |date| <= 4 then date else date[..4])
  }

  /** The file name of a path as the code takes it: the text after the last backslash. */
  function FileNameAsWritten(path: string): string {
    AfterLast(path, '\\')
  }

  /** The name a loaded table is stored under, as written: the file name without
      `.parquet`, upper-cased. */
  function StoredNameAsWritten(path: string): string {
    Upper(RemoveAll(FileNameAsWritten(path), ".parquet"))
  }

  /** One file as the loading loop sees it: whether it is loaded (not a `.txt` file), the
      name it is stored under, and its table. */
  function Entry<R>(file: (string, Frame<R, string>)): (bool, string, Frame<R, string>) {
    (!EndsWith(FileNameAsWritten(file.0), ".txt"), StoredNameAsWritten(file.0), file.1)
  }

  function Entries<R>(files: seq<(string, Frame<R, string>)>): (es: seq<(bool, string, Frame<R, string>)>)
    ensures |es| == |files| && forall i :: 0 <= i < |files| ==> es[i] == Entry(files[i])
  {
    seq(|files|, i requires 0 <= i < |files| => Entry(files[i]))
  }

  /** `locals()[name] = table` for each loaded entry in turn: a later entry replaces an
      earlier one stored under the same name. */
  function Store<T>(entries: seq<(bool, string, T)>): map<string, T> {
    if entries == [] then map[]
    else
      var m := Store(entries[..|entries| - 1]);
      var (keep, name, value) := entries[|entries| - 1];
      if keep then m[name := value] else m
  }

  /** The tables read from the directory, by stored name. */
  function Loaded<R>(files: seq<(string, Frame<R, string>)>): map<string, Frame<R, string>> {
    Store(Entries(files))
  }

  /** The file name of a path: the text after the last separator, slash or backslash. */
  function FileName(path: string): (name: string)
    ensures '\\' !in name && '/' !in name
  {
    AfterLast(AfterLast(path, '\\'), '/')
  }

  /** The name a table would be stored under if both separators were recognised. */
  function StoredName(path: string): string {
    Upper(RemoveAll(FileName(path), ".parquet"))
  }

  /** One file under the corrected file name. */
  function CorrectedEntry<R>(file: (string, Frame<R, string>)): (bool, string, Frame<R, string>) {
    (!EndsWith(FileName(file.0), ".txt"), StoredName(file.0), file.1)
  }

  /** The tables read from the directory, stored under the corrected names. */
  function LoadedCorrected<R>(files: seq<(string, Frame<R, string>)>): map<string, Frame<R, string>> {
    Store(seq(|files|, i requires 0 <= i < |files| => CorrectedEntry(files[i])))
  }

  lemma StoreStep<T>(entries: seq<(bool, string, T)>, i: nat)
    requires i < |entries|
    ensures Store(entries[..i + 1])
              == if entries[i].0 then Store(entries[..i])[entries[i].1 := entries[i].2] else Store(entries[..i])
  {
    assert entries[..i + 1][..i] == entries[..i];
  }

  /** A name holds the table of the last loaded entry stored under it. */
  lemma {:induction false} StoreLookup<T>(entries: seq<(bool, string, T)>, name: string, i: nat)
    requires i < |entries| && entries[i].0 && entries[i].1 == name
    requires forall j :: i < j < |entries| ==> !entries[j].0 || entries[j].1 != name
    ensures name in Store(entries) && Store(entries)[name] == entries[i].2
  {
    var init := entries[..|entries| - 1];
    if i < |entries| - 1 {
      assert forall j :: i <= j < |init| ==> init[j] == entries[j];
      StoreLookup(init, name, i);
    }
  }

  /** A name no loaded entry is stored under is not there, and every name that is there
      comes from a loaded entry. */
  lemma {:induction false} StoreFrom<T>(entries: seq<(bool, string, T)>, name: string)
    ensures name in Store(entries) <==> exists i :: 0 <= i < |entries| && entries[i].0 && entries[i].1 == name
    ensures name in Store(entries) ==>
              exists i :: 0 <= i < |entries| && entries[i].0 && entries[i].1 == name && Store(entries)[name] == entries[i].2
  {
    if entries != [] {
      var init := entries[..|entries| - 1];
      assert forall j :: 0 <= j < |init| ==> init[j] == entries[j];
      StoreFrom(init, name);
      var last := |entries| - 1;
      if name in Store(entries) && !(entries[last].0 && entries[last].1 == name) {
        var i :| 0 <= i < |init| && init[i].0 && init[i].1 == name && Store(init)[name] == init[i].2;
        assert entries[i] == init[i];
      }
      if exists i :: 0 <= i < |entries| && entries[i].0 && entries[i].1 == name {
        var i :| 0 <= i < |entries| && entries[i].0 && entries[i].1 == name;
        if i < last {
          assert init[i] == entries[i];
        }
      }
    }
  }

  /** Every loaded table is one of the files' tables. */
  lemma LoadedWellFormedProof<R>(files: seq<(string, Frame<R, string>)>)
    requires forall i :: 0 <= i < |files| ==> WellFormed(files[i].1)
    ensures LoadedWellFormed(files)
  {
    var es := Entries(files);
    forall name | name in Store(es) ensures WellFormed(Store(es)[name]) {
      StoreFrom(es, name);
    }
  }

  predicate LoadedWellFormed<R>(files: seq<(string, Frame<R, string>)>) {
    forall name :: name in Loaded(files) ==> WellFormed(Loaded(files)[name])
  }

  /** The names asked for: the prefix followed by each year from `first` to `last`,
      ascending. */
  function TableNames(prefix: string, first: int, last: int): (names: seq<string>)
    ensures |names| == if last < first then 0 else last - first + 1
    ensures forall k :: 0 <= k < |names| ==> names[k] == prefix + IntToString(first + k)
    decreases last - first
  {
    if last < first then [] else TableNames(prefix, first, last - 1) + [prefix + IntToString(last)]
  }

  /** Distinct years give distinct names. */
  lemma TableNamesDistinct(prefix: string, first: int, last: int)
    ensures Distinct(TableNames(prefix, first, last))
  {
    var names := TableNames(prefix, first, last);
    forall i, j | 0 <= i < j < |names| ensures names[i] != names[j] {
      NamesAt(names, prefix, first, i, j);
    }
  }

  /** Names built from distinct years differ. */
  lemma NamesAt(names: seq<string>, prefix: string, first: int, i: nat, j: nat)
    requires i < j < |names|
    requires forall k :: 0 <= k < |names| ==> names[k] == prefix + IntToString(first + k)
    ensures names[i] != names[j]
  {
    PrefixedDistinct(prefix, first + i, first + j);
  }

  lemma PrefixedDistinct(prefix: string, a: int, b: int)
    requires a != b
    ensures prefix + IntToString(a) != prefix + IntToString(b)
  {
    var u, v := prefix + IntToString(a), prefix + IntToString(b);
    if u == v {
      assert u[|prefix|..] == IntToString(a);
      assert v[|prefix|..] == IntToString(b);
      IntToStringInjective(a, b);
    }
  }

  /** The tables under `names`, in order; the first name not loaded is a KeyError. */
  function Lookup<T>(tables: map<string, T>, names: seq<string>): (r: Result<seq<T>>)
    ensures r.Ok? <==> forall k :: 0 <= k < |names| ==> names[k] in tables
    ensures r.Ok? ==> |r.value| == |names| && forall k :: 0 <= k < |names| ==> r.value[k] == tables[names[k]]
    ensures r.Err? ==> exists k :: 0 <= k < |names| && names[k] !in tables && r.error == KeyError(names[k])
                                   && forall j :: 0 <= j < k ==> names[j] in tables
  {
    if names == [] then Ok([])
    else if names[0] !in tables then Err(KeyError(names[0]))
    else
      match Lookup(tables, names[1..])
      case Err(e) => Err(e)
      case Ok(rest) => Ok([tables[names[0]]] + rest)
  }

  /** `pd.concat(dfs)` for a non-empty list, one frame after the other. */
  function ConcatAll<R, C(==)>(dfs: seq<Frame<R, C>>): (r: Result<Frame<R, C>>)
    requires dfs != [] && forall k :: 0 <= k < |dfs| ==> WellFormed(dfs[k])
    ensures r.Ok? ==> WellFormed(r.value)
  {
    if |dfs| == 1 then Ok(dfs[0])
    else
      match ConcatAll(dfs[..|dfs| - 1])
      case Err(e) => Err(e)
      case Ok(a) =>
        ConcatRowsOutcome(a, dfs[|dfs| - 1]);
        ConcatRows(a, dfs[|dfs| - 1])
  }

  function Indices<R, C>(dfs: seq<Frame<R, C>>): seq<R> {
    if dfs == [] then [] else Indices(dfs[..|dfs| - 1]) + dfs[|dfs| - 1].index
  }

  /** The concatenation stacks the rows of the tables in list order, and has a column for a
      label exactly when one of the tables has it. */
  lemma {:induction false} ConcatAllSpec<R, C>(dfs: seq<Frame<R, C>>, c: C)
    requires dfs != [] && forall k :: 0 <= k < |dfs| ==> WellFormed(dfs[k])
    ensures ConcatAll(dfs).Ok? ==> ConcatAll(dfs).value.index == Indices(dfs)
    ensures ConcatAll(dfs).Ok? ==>
              (c in ConcatAll(dfs).value.columns <==> exists k :: 0 <= k < |dfs| && c in dfs[k].columns)
  {
    if |dfs| == 1 {
      assert Indices(dfs) == Indices(dfs[..0]) + dfs[0].index;
    } else {
      var init, last := dfs[..|dfs| - 1], dfs[|dfs| - 1];
      ConcatAllSpec(init, c);
      if ConcatAll(dfs).Ok? {
        var a := ConcatAll(init).value;
        ConcatRowsOutcome(a, last);
        ConcatRowsColumn(a, last, c);
        if c in a.columns {
          var k :| 0 <= k < |init| && c in init[k].columns;
          assert dfs[k] == init[k];
        }
        if exists k :: 0 <= k < |dfs| && c in dfs[k].columns {
          var k :| 0 <= k < |dfs| && c in dfs[k].columns;
          if k < |init| {
            assert init[k] == dfs[k];
          }
        }
      }
    }
  }

  /** `combined_df.loc[:, combined_df.columns.isin(sensor_names)]` on the outcome of the
      concatenation. */
  function Filtered<R>(combined: Result<Frame<R, string>>, sensorNames: seq<string>): Result<Frame<R, string>>
    requires combined.Ok? ==> WellFormed(combined.value)
  {
    match combined
    case Err(e) => Err(e)
    case Ok(f) => Ok(FilterColumns(f, sensorNames))
  }

  /** The outcome once the table names are known: the first name not loaded, or the
      filtered concatenation of the named tables in order. */
  ghost predicate Merged<R>(files: seq<(string, Frame<R, string>)>, names: seq<string>, sensorNames: seq<string>,
                      r: Result<Frame<R, string>>)
    requires forall i :: 0 <= i < |files| ==> WellFormed(files[i].1)
  {
    LoadedWellFormedProof(files);
    match Lookup(Loaded(files), names)
    case Err(e) => r == Err(e)
    case Ok(dfs) => dfs != [] && r == Filtered(ConcatAll(dfs), sensorNames)
  }

  const NoFrames := "No DataFrames found for the specified resample and year range."

  /** The sensors' readings between two dates for one resample mode. The tables are loaded
      by stored name; the years are the first four characters of the two dates; each year's
      table `<prefix><year>` is looked up in year order; the tables are concatenated and only
      the columns named in `sensorNames` are kept, in the tables' order. An unknown mode is
      only noticed inside the year loop, so an empty year range reports the missing tables
      instead. */
  method MergeAndFilter<R>(files: seq<(string, Frame<R, string>)>, resample: string, sensorNames: seq<string>,
                           startDate: string, endDate: string) returns (r: Result<Frame<R, string>>)
    requires forall i :: 0 <= i < |files| ==> WellFormed(files[i].1)
    ensures YearOf(startDate).Err? ==> r == Err(YearOf(startDate).error)
    ensures YearOf(startDate).Ok? && YearOf(endDate).Err? ==> r == Err(YearOf(endDate).error)
    ensures YearOf(startDate).Ok? && YearOf(endDate).Ok? ==>
      var first, last := YearOf(startDate).value, YearOf(endDate).value;
      && (last < first ==> r == Err(ValueError(NoFrames)))
      && (first <= last && ResamplePrefix(resample).Err? ==> r == Err(ResamplePrefix(resample).error))
      && (first <= last && ResamplePrefix(resample).Ok? ==>
            Merged(files, TableNames(ResamplePrefix(resample).value, first, last), sensorNames, r))
  {
    var tables := LoadTables(files);
    LoadedWellFormedProof(files);
    var startYear := YearOf(startDate);
    if startYear.Err? {
      return Err(startYear.error);
    }
    var endYear := YearOf(endDate);
    if endYear.Err? {
      return Err(endYear.error);
    }
    var first, last := startYear.value, endYear.value;
    var found := LookupYears(tables, resample, first, last);
    if found.Err? {
      return Err(found.error);
    }
    var dfs := found.value;
    if dfs == [] {
      return Err(ValueError(NoFrames));
    }
    var names := TableNames(ResamplePrefix(resample).value, first, last);
    assert forall k :: 0 <= k < |dfs| ==> dfs[k] == tables[names[k]];
    var combined := ConcatAll(dfs);
    if combined.Err? {
      return Err(combined.error);
    }
    r := Ok(FilterColumns(combined.value, sensorNames));
  }

  /** The loop over the directory: each file that is not a `.txt` file is stored under its
      stored name, a later one replacing an earlier one of the same name. */
  method LoadTables<R>(files: seq<(string, Frame<R, string>)>) returns (tables: map<string, Frame<R, string>>)
    ensures tables == Loaded(files)
  {
    tables := map[];
    ghost var entries := Entries(files);
    for i := 0 to |files|
      invariant tables == Store(entries[..i])
    {
      var (keep, name, table) := Entry(files[i]);
      StoreStep(entries, i);
      if keep {
        tables := tables[name := table];
      }
    }
    assert entries[..|files|] == entries;
  }

  /** The loop over the years: the mode's prefix is checked inside the loop, so an empty
      range never checks it; otherwise the tables of the years in order, or the first name
      missing. */
  method LookupYears<T>(tables: map<string, T>, resample: string, first: int, last: int) returns (r: Result<seq<T>>)
    ensures last < first ==> r == Ok([])
    ensures first <= last && ResamplePrefix(resample).Err? ==> r == Err(ResamplePrefix(resample).error)
    ensures first <= last && ResamplePrefix(resample).Ok? ==>
              r == Lookup(tables, TableNames(ResamplePrefix(resample).value, first, last))
  {
    ghost var mode := ResamplePrefix(resample);
    var dfs: seq<T> := [];
    var year := first;
    while year <= last
      invariant first <= year <= last + 1 || (last < first && year == first)
      invariant year > first ==> mode.Ok? && Lookup(tables, TableNames(mode.value, first, year - 1)) == Ok(dfs)
      invariant year == first ==> dfs == []
      decreases last - year
    {
      var prefix := ResamplePrefix(resample);
      if prefix.Err? {
        return Err(prefix.error);
      }
      var name := prefix.value + IntToString(year);
      LookupStep(tables, prefix.value, first, year);
      if name !in tables {
        LookupKeepsError(tables, prefix.value, first, year, last);
        return Err(KeyError(name));
      }
      dfs := dfs + [tables[name]];
      year := year + 1;
    }
    return Ok(dfs);
  }

  /** Looking up one more year extends the lookup of the earlier years by one table, or fails
      with that year's name when it is the first one missing. */
  lemma LookupStep<T>(tables: map<string, T>, prefix: string, first: int, year: int)
    requires first <= year
    ensures var before := Lookup(tables, TableNames(prefix, first, year - 1));
            var name := prefix + IntToString(year);
            before.Ok? ==>
              Lookup(tables, TableNames(prefix, first, year))
                == if name in tables then Ok(before.value + [tables[name]]) else Err(KeyError(name))
  {
    var names := TableNames(prefix, first, year - 1);
    var name := prefix + IntToString(year);
    LookupAppend(tables, names, name);
  }

  lemma {:induction false} LookupAppend<T>(tables: map<string, T>, names: seq<string>, name: string)
    ensures Lookup(tables, names).Ok? ==>
              Lookup(tables, names + [name])
                == if name in tables then Ok(Lookup(tables, names).value + [tables[name]]) else Err(KeyError(name))
  {
    var longer := names + [name];
    if names == [] {
      assert longer == [name] && longer[1..] == [];
      if name in tables {
        assert Lookup(tables, longer) == Ok([tables[name]] + []);
        assert [tables[name]] + [] == [] + [tables[name]];
      }
    } else if names[0] in tables {
      assert longer[0] == names[0];
      assert longer[1..] == names[1..] + [name];
      LookupAppend(tables, names[1..], name);
      var head := tables[names[0]];
      var rest := Lookup(tables, names[1..]);
      if rest.Ok? && name in tables {
        assert Lookup(tables, names).value == [head] + rest.value;
        assert [head] + (rest.value + [tables[name]]) == ([head] + rest.value) + [tables[name]];
      }
    }
  }

  /** Once a year's table is missing, the later years do not change the outcome. */
  lemma LookupKeepsError<T>(tables: map<string, T>, prefix: string, first: int, mid: int, last: int)
    requires mid <= last
    requires Lookup(tables, TableNames(prefix, first, mid)).Err?
    ensures Lookup(tables, TableNames(prefix, first, last)) == Lookup(tables, TableNames(prefix, first, mid))
  {
    assert TableNames(prefix, first, mid) != [];
    TableNamesSplit(prefix, first, mid, last);
    LookupPrefixError(tables, TableNames(prefix, first, mid), TableNames(prefix, mid + 1, last));
  }

  lemma {:induction false} TableNamesSplit(prefix: string, first: int, mid: int, last: int)
    requires first <= mid + 1 && mid <= last
    ensures TableNames(prefix, first, last) == TableNames(prefix, first, mid) + TableNames(prefix, mid + 1, last)
    decreases last - mid
  {
    if mid < last {
      TableNamesSplit(prefix, first, mid, last - 1);
      var name := prefix + IntToString(last);
      assert TableNames(prefix, mid + 1, last) == TableNames(prefix, mid + 1, last - 1) + [name];
      assert TableNames(prefix, first, last) == TableNames(prefix, first, last - 1) + [name];
    } else {
      assert TableNames(prefix, mid + 1, last) == [];
    }
  }

  lemma {:induction false} LookupPrefixError<T>(tables: map<string, T>, names: seq<string>, more: seq<string>)
    requires Lookup(tables, names).Err?
    ensures Lookup(tables, names + more) == Lookup(tables, names)
  {
    var longer := names + more;
    assert longer[0] == names[0];
    if names[0] in tables {
      assert longer[1..] == names[1..] + more;
      LookupPrefixError(tables, names[1..], more);
    }
  }

  /** What the static-sensor processing writes is what this page asks for once both
      separators are recognised: an output of year `y`, in any directory, has the stored name
      the year loop looks up, whether the path uses slashes or backslashes. */
  lemma StaticOutputFound(dir: string, sep: char, y: int)
    requires sep == '/' || sep == '\\'
    ensures StoredName(dir + [sep] + TowerStatic.HourlyName(y)) == ResamplePrefix("hourly").value + IntToString(y)
    ensures StoredName(dir + [sep] + TowerStatic.DailyName(y)) == ResamplePrefix("daily").value + IntToString(y)
    ensures StoredName(dir + [sep] + TowerStatic.WeeklyName(y)) == ResamplePrefix("weekly").value + IntToString(y)
    ensures StoredName(dir + [sep] + TowerStatic.MonthlyName(y)) == ResamplePrefix("monthly").value + IntToString(y)
  {
    ModePrefixes();
    OutputFound(dir, sep, 'h', y);
    OutputFound(dir, sep, 'd', y);
    OutputFound(dir, sep, 'w', y);
    OutputFound(dir, sep, 'm', y);
  }

  lemma ModePrefixes()
    ensures ResamplePrefix("hourly") == Ok([UpperChar('h'), '_'])
    ensures ResamplePrefix("daily") == Ok([UpperChar('d'), '_'])
    ensures ResamplePrefix("weekly") == Ok([UpperChar('w'), '_'])
    ensures ResamplePrefix("monthly") == Ok([UpperChar('m'), '_'])
  {
  }

  /** As written, only backslashes separate directories: with slashes the directory stays
      in the stored name, so the hourly table of year `y` is not stored under `H_<y>`. */
  lemma SlashPathMisnamed(dir: string, y: int)
    requires '\\' !in dir
    ensures StoredNameAsWritten(dir + ['/'] + TowerStatic.HourlyName(y))
            != ResamplePrefix("hourly").value + IntToString(y)
    ensures StoredName(dir + ['/'] + TowerStatic.HourlyName(y))
            == ResamplePrefix("hourly").value + IntToString(y)
  {
    var stem := TowerStatic.HourlyName(y);
    IntToStringChars(y);
    StemChars('h', IntToString(y));
    var path := dir + ['/'] + stem;
    assert path[|dir|] == '/';
    assert '\\' !in path by {
      assert forall ch :: ch in path ==> ch in dir || ch == '/' || ch in stem;
    }
    SlashKept(path);
    ModePrefixes();
    NoSlash("H_", y);
    StaticOutputFound(dir, '/', y);
  }

  /** A slash path without backslashes keeps its slash in the name it is stored under. */
  lemma SlashKept(path: string)
    requires '/' in path && '\\' !in path
    ensures '/' in StoredNameAsWritten(path)
  {
    AfterLastNoSep(path, '\\');
    RemoveAllKeeps(path, ".parquet", '/');
    var k :| 0 <= k < |RemoveAll(path, ".parquet")| && RemoveAll(path, ".parquet")[k] == '/';
    assert StoredNameAsWritten(path)[k] == '/';
  }

  lemma NoSlash(prefix: string, y: int)
    requires '/' !in prefix
    ensures '/' !in prefix + IntToString(y)
  {
    IntToStringChars(y);
    assert forall ch :: ch in prefix + IntToString(y) ==> ch in prefix || ch in IntToString(y);
  }

  /** As written, when the directory lists its files with slashes and no backslashes (as
      `glob` does on POSIX systems), no name without a slash is stored. */
  lemma SlashPathsMiss<R>(files: seq<(string, Frame<R, string>)>, name: string)
    requires forall i :: 0 <= i < |files| ==> '/' in files[i].0 && '\\' !in files[i].0
    requires '/' !in name
    ensures name !in Loaded(files)
  {
    var es := Entries(files);
    StoreFrom(es, name);
    if name in Store(es) {
      var i :| 0 <= i < |es| && es[i].0 && es[i].1 == name;
      SlashKept(files[i].0);
    }
  }

  /** Hence, as written, every year range in a known mode fails on its first year's name
      when the paths use slashes: `merge_and_filter_dataframe` raises `KeyError`. */
  lemma SlashPathsFail<R>(files: seq<(string, Frame<R, string>)>, resample: string, first: int, last: int)
    requires forall i :: 0 <= i < |files| ==> '/' in files[i].0 && '\\' !in files[i].0
    requires first <= last && ResamplePrefix(resample).Ok?
    ensures Lookup(Loaded(files), TableNames(ResamplePrefix(resample).value, first, last))
            == Err(KeyError(ResamplePrefix(resample).value + IntToString(first)))
  {
    var prefix := ResamplePrefix(resample).value;
    var names := TableNames(prefix, first, last);
    NoSlash(prefix, first);
    SlashPathsMiss(files, names[0]);
    var r := Lookup(Loaded(files), names);
    if r.Err? {
      var k :| 0 <= k < |names| && names[k] !in Loaded(files) && r.error == KeyError(names[k])
                && forall j :: 0 <= j < k ==> names[j] in Loaded(files);
      assert k == 0;
    }
  }

  /** With both separators recognised, each output the static processing writes is loaded
      under the name asked for its year, holding the table of the last file of that name. */
  lemma CorrectedLoadFinds<R>(files: seq<(string, Frame<R, string>)>, i: nat, dir: string, sep: char, c: char, y: int)
    requires sep == '/' || sep == '\\'
    requires c in "hdwm"
    requires i < |files| && files[i].0 == dir + [sep] + TowerStatic.OutputName(c, y)
    requires forall j :: i < j < |files| ==> StoredName(files[j].0) != StoredName(files[i].0)
    ensures [UpperChar(c), '_'] + IntToString(y) in LoadedCorrected(files)
    ensures LoadedCorrected(files)[[UpperChar(c), '_'] + IntToString(y)] == files[i].1
  {
    var es := seq(|files|, j requires 0 <= j < |files| => CorrectedEntry(files[j]));
    var stem := TowerStatic.OutputName(c, y);
    IntToStringChars(y);
    StemChars(c, IntToString(y));
    BaseNameOf(dir, sep, stem);
    NotText(c, y);
    OutputFound(dir, sep, c, y);
    StoreLookup(es, StoredName(files[i].0), i);
  }

  /** An output name does not end in `.txt`. */
  lemma NotText(c: char, y: int)
    requires c in "hdwm"
    ensures !EndsWith(TowerStatic.OutputName(c, y), ".txt")
  {
    var stem := TowerStatic.OutputName(c, y);
    IntToStringChars(y);
    StemChars(c, IntToString(y));
    assert stem[|stem| - 1] in stem;
  }

  lemma OutputFound(dir: string, sep: char, c: char, y: int)
    requires sep == '/' || sep == '\\'
    requires c in "hdwm"
    ensures StoredName(dir + [sep] + TowerStatic.OutputName(c, y)) == [UpperChar(c), '_'] + IntToString(y)
  {
    var digits := IntToString(y);
    var stem := TowerStatic.OutputName(c, y);
    assert stem == [c, '_'] + digits;
    IntToStringChars(y);
    StemChars(c, digits);
    StoredNameOf(dir, sep, stem);
    UpperStem(c, digits);
  }

  /** A file whose name has no dot or separator is stored under its upper-cased name. */
  lemma StoredNameOf(dir: string, sep: char, stem: string)
    requires sep == '/' || sep == '\\'
    requires '\\' !in stem && '/' !in stem && '.' !in stem
    ensures StoredName(dir + [sep] + stem) == Upper(stem)
  {
    BaseNameOf(dir, sep, stem);
    RemoveAllAbsent(stem, ".parquet");
  }

  lemma StemChars(c: char, digits: string)
    requires c in "hdwm"
    requires forall ch :: ch in digits ==> IsDigit(ch) || ch == '-'
    ensures '\\' !in [c, '_'] + digits && '/' !in [c, '_'] + digits && '.' !in [c, '_'] + digits
    ensures 't' !in [c, '_'] + digits
  {
    assert forall ch :: ch in [c, '_'] + digits ==> ch == c || ch == '_' || ch in digits;
  }

  lemma UpperStem(c: char, digits: string)
    requires forall k :: 0 <= k < |digits| ==> UpperChar(digits[k]) == digits[k]
    ensures Upper([c, '_'] + digits) == [UpperChar(c), '_'] + digits
  {
    UpperConcat([c, '_'], digits);
    UpperId(digits);
    assert Upper([c, '_']) == [UpperChar(c), UpperChar('_')];
  }

  /** The file name of `dir` + separator + `name` is `name`. */
  lemma BaseNameOf(dir: string, sep: char, name: string)
    requires sep == '/' || sep == '\\'
    requires '\\' !in name && '/' !in name
    ensures FileName(dir + [sep] + name) == name
  {
    if sep == '\\' {
      BaseNameBackslash(dir, name);
    } else {
      BaseNameSlash(dir, name);
    }
  }

  lemma BaseNameBackslash(dir: string, name: string)
    requires '\\' !in name && '/' !in name
    ensures AfterLast(AfterLast(dir + ['\\'] + name, '\\'), '/') == name
  {
    AfterLastAppend(dir, '\\', name);
    AfterLastNoSep(name, '/');
  }

  lemma BaseNameSlash(dir: string, name: string)
    requires '\\' !in name && '/' !in name
    ensures AfterLast(AfterLast(dir + ['/'] + name, '\\'), '/') == name
  {
    var tail := ['/'] + name;
    assert '\\' !in tail;
    assert dir + ['/'] + name == dir + tail;
    AfterLastKeepsTail(dir, tail, '\\');
    var head := AfterLast(dir, '\\');
    assert head + tail == head + ['/'] + name;
    AfterLastAppend(head, '/', name);
  }

  // ---------------------------------------------------------------------------
  // get_unit
  // ---------------------------------------------------------------------------

  /** What `t_sensor_dict_unit` holds for a category: a list of units or a single unit. */
  datatype UnitEntry = UnitList(units: seq<string>) | UnitText(text: string)

  /** `str([u])` for a unit without quotes or backslashes. */
  function ListRepr(u: string): string {
    "['" + u + "']"
  }

  /** `t_sensor_dict_unit.get(category)[index]` */
  function Pick(units: map<string, UnitEntry>, category: string, index: nat): (r: Result<string>)
    ensures r.Ok? <==> category in units && match units[category]
                                             case UnitList(l) => index < |l|
                                             case UnitText(t) => index < |t|
  {
    if category !in units then Err(TypeError("'NoneType' object is not subscriptable"))
    else match units[category]
      case UnitList(l) => if index < |l| then Ok(l[index]) else Err(IndexError("list index out of range"))
      case UnitText(t) => if index < |t| then Ok([t[index]]) else Err(IndexError("string index out of range"))
  }

  /** `str([u])` as the result, or the error of the lookup. */
  function Bracketed(u: Result<string>): (r: Result<UnitEntry>)
    ensures r.Ok? <==> u.Ok?
  {
    match u
    case Err(e) => Err(e)
    case Ok(v) => Ok(UnitText(ListRepr(v)))
  }

  /** The unit of an instrument of `category`. Weather-station instruments take the unit at
      their own position; of the inclinometers the last eight take the second unit and the
      others the first; any other category has one unit, or "unknown unit" when the unit
      table lacks it. */
  function UnitOf(category: string, instruments: seq<string>, units: map<string, UnitEntry>, name: string): (r: Result<UnitEntry>)
    requires name in instruments
    ensures category == "weather_station" ==> r == Bracketed(Pick(units, category, FirstIndex(instruments, name)))
    ensures category == "inclinometers" ==>
              r == Bracketed(Pick(units, category, if FirstIndex(instruments, name) >= |instruments| - 8 then 1 else 0))
    ensures category != "inclinometers" && category != "weather_station" ==>
              r == Ok(if category in units then units[category] else UnitText("unknown unit"))
  {
    var index := FirstIndex(instruments, name);
    if category == "weather_station" then Bracketed(Pick(units, category, index))
    else if category == "inclinometers" then
      Bracketed(Pick(units, category, if index >= |instruments| - 8 then 1 else 0))
    else if category in units then Ok(units[category])
    else Ok(UnitText("unknown unit"))
  }

  /** `get_unit`: the categories are tried in order and the first one listing the instrument
      decides. */
  function GetUnit(categories: seq<(string, seq<string>)>, units: map<string, UnitEntry>, name: string): Result<UnitEntry> {
    if categories == [] then Ok(UnitText("unknown unit"))
    else if name in categories[0].1 then UnitOf(categories[0].0, categories[0].1, units, name)
    else GetUnit(categories[1..], units, name)
  }

  /** An instrument in no category has an unknown unit; otherwise the first category listing
      it decides, whatever the later ones say. */
  lemma {:induction false} GetUnitSpec(categories: seq<(string, seq<string>)>, units: map<string, UnitEntry>, name: string, k: nat)
    requires k <= |categories|
    requires forall j :: 0 <= j < k ==> name !in categories[j].1
    ensures k == |categories| ==> GetUnit(categories, units, name) == Ok(UnitText("unknown unit"))
    ensures k < |categories| && name in categories[k].1 ==>
              GetUnit(categories, units, name) == UnitOf(categories[k].0, categories[k].1, units, name)
  {
    if k > 0 {
      assert name !in categories[0].1;
      GetUnitSpec(categories[1..], units, name, k - 1);
    }
  }

  // ---------------------------------------------------------------------------
  // remove_outliers_iqr
  // ---------------------------------------------------------------------------

  /** `v < Q1 - 1.5 * IQR or v > Q3 + 1.5 * IQR`; every comparison with NaN is false. */
  predicate Outlier(v: Cell, q1: Cell, q3: Cell) {
    v.Some? && q1.Some? && q3.Some? &&
    (v.value < q1.value - 1.5 * (q3.value - q1.value) || v.value > q3.value + 1.5 * (q3.value - q1.value))
  }

  /** `remove_outliers_iqr`, with the per-column quartiles given. */
  function RemoveOutliersIqr<R>(f: Frame<R, string>, q1: seq<Cell>, q3: seq<Cell>): Frame<R, string>
    requires WellFormed(f) && |q1| == |f.columns| && |q3| == |f.columns|
  {
    SelectRows(f, IqrMask(f, q1, q3))
  }

  /** The rows with no outlier in any column. */
  function IqrMask<R>(f: Frame<R, string>, q1: seq<Cell>, q3: seq<Cell>): (mask: seq<bool>)
    requires WellFormed(f) && |q1| == |f.columns| && |q3| == |f.columns|
    ensures |mask| == |f.index|
    ensures forall r :: 0 <= r < |f.index| ==>
              (mask[r] <==> forall c :: 0 <= c < |f.columns| ==> !Outlier(f.cells[r][c], q1[c], q3[c]))
  {
    seq(|f.index|, r requires 0 <= r < |f.index| =>
      forall c :: 0 <= c < |f.columns| ==> !Outlier(f.cells[r][c], q1[c], q3[c]))
  }

  /** The filter drops whole rows: a row stays, unchanged and in order, exactly when none of
      its values lies outside its column's fences; a missing value, or a column whose
      quartiles are missing, never drops a row. */
  lemma RemoveOutliersIqrSpec<R>(f: Frame<R, string>, q1: seq<Cell>, q3: seq<Cell>)
    requires WellFormed(f) && |q1| == |f.columns| && |q3| == |f.columns|
    ensures var g := RemoveOutliersIqr(f, q1, q3);
            var ps := TruePositions(IqrMask(f, q1, q3));
            && g.columns == f.columns && |g.index| == |ps|
            && (forall k :: 0 <= k < |ps| ==> g.index[k] == f.index[ps[k]] && g.cells[k] == f.cells[ps[k]])
            && (forall k, l :: 0 <= k < l < |ps| ==> ps[k] < ps[l])
            && (forall r :: r in ps <==> 0 <= r < |f.index|
                                         && forall c :: 0 <= c < |f.columns| ==> !Outlier(f.cells[r][c], q1[c], q3[c]))
  {
    SelectRowsSpec(f, IqrMask(f, q1, q3));
  }
}
