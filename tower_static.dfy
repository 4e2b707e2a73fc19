/** The tower static-sensor ETL: every exported file is split per year; within a year each
    sensor's readings are de-duplicated on their timestamp (the first reading wins) and the
    sensors are outer-joined into one table, written as hourly, daily, weekly and monthly
    outputs. The resampling itself (pandas `resample().mean()`) is not modelled: a resampled
    output records its period and the table it was computed from. */
module TowerStatic {
  import opened Common
  import opened Frames
  import opened Dates

  // ---------------------------------------------------------------------------
  // Reading the file
  // ---------------------------------------------------------------------------

  /** The column names of the export and the names they are given. */
  const TimeMap: seq<(string, string)> :=
    [("Yyyy", "year"), ("Mm", "month"), ("Dd", "day"), ("Hh", "hour"), ("Mn", "minute")]

  /** The columns read from each file. */
  const UseCols: seq<string> := ["Yyyy", "Mm", "Dd", "Hh", "Mn", "UI", "TAG"]

  /** `df.rename(columns=time_map)` on one column name. */
  function RenameColumn(c: string): string
  {
    if c == "Yyyy" then "year"
    else if c == "Mm" then "month"
    else if c == "Dd" then "day"
    else if c == "Hh" then "hour"
    else if c == "Mn" then "minute"
    else c
  }

  /** The five time columns get their new names and the others keep theirs. */
  lemma RenameUseCols()
    ensures seq(|UseCols|, i requires 0 <= i < |UseCols| => RenameColumn(UseCols[i]))
            == ["year", "month", "day", "hour", "minute", "UI", "TAG"]
    ensures forall k :: 0 <= k < |TimeMap| ==> RenameColumn(TimeMap[k].0) == TimeMap[k].1
  {
  }

  /** One row of an export, after the rename. */
  datatype Reading = Reading(year: int, month: int, day: int, hour: int, minute: int, ui: Cell, tag: string)

  // ---------------------------------------------------------------------------
  // pd.to_datetime on the five time columns
  // ---------------------------------------------------------------------------

  /** A pandas timestamp at minute resolution: minutes since 1970-01-01 00:00. */
  datatype Timestamp = Timestamp(minutes: int)

  /** `year * 10000 + month * 100 + day`, the number pandas reads as `%Y%m%d`. */
  function DateNumber(r: Reading): int {
    r.year * 10000 + r.month * 100 + r.day
  }

  /** The date read from that number: its digits taken as `YYYYMMDD` (floor division, as in
      Python; for a positive divisor it agrees with Dafny's). A month or day out of range
      may carry into the other fields, as in month 0 with day 112. */
  function AssembledDate(r: Reading): Date {
    var n := DateNumber(r);
    Date(n / 10000, n / 100 % 100, n % 100)
  }

  function DaysInYear(y: int): int {
    if IsLeap(y) then 366 else 365
  }

  /** Days from 1970-01-01 to the first of January of year `y`. */
  function YearStart(y: int): int
    decreases if y < 1970 then 1970 - y else y - 1970
  {
    if y == 1970 then 0
    else if y > 1970 then YearStart(y - 1) + DaysInYear(y - 1)
    else YearStart(y + 1) - DaysInYear(y)
  }

  /** Days from the first of January to the first of month `m` (0 outside 2..12). */
  function MonthStart(y: int, m: int): int
    decreases m
  {
    if m <= 1 || 12 < m then 0 else MonthStart(y, m - 1) + DaysInMonth(y, m - 1)
  }

  /** Days from 1970-01-01 to a date. */
  function DayNumber(d: Date): int {
    YearStart(d.year) + MonthStart(d.year, d.month) + d.day - 1
  }

  /** The stamp of a reading: the assembled date's midnight plus the hours and the minutes
      as durations, so an hour of 24 or a minute of 60 carries into the next day or hour. */
  function Stamp(r: Reading): Timestamp {
    Timestamp(DayNumber(AssembledDate(r)) * 1440 + r.hour * 60 + r.minute)
  }

  /** The largest nanosecond count of a pandas timestamp or duration; the smallest is its
      negation, the one below it being the missing value. */
  const NsMax := 0x7FFF_FFFF_FFFF_FFFF
  const NsPerMinute := 60_000_000_000

  predicate InBounds(ns: int) {
    -NsMax <= ns <= NsMax
  }

  /** `pd.to_datetime` accepts the row: the assembled number is a real date whose midnight
      is a timestamp, the hours and the minutes are durations, and adding them, hours
      first, stays within the timestamp range. */
  predicate ValidStamp(r: Reading) {
    var midnight := DayNumber(AssembledDate(r)) * 1440 * NsPerMinute;
    var hours := r.hour * 60 * NsPerMinute;
    var minutes := r.minute * NsPerMinute;
    && ValidDate(AssembledDate(r))
    && InBounds(midnight) && InBounds(hours) && InBounds(midnight + hours)
    && InBounds(minutes) && InBounds(midnight + hours + minutes)
  }

  /** Only the years 1677 to 2262 convert: outside them even the date's midnight is beyond
      the nanosecond range. Well inside them, every real date with an hour and a minute of
      the day converts. */
  lemma ValidStampYears(r: Reading)
    ensures ValidStamp(r) ==> 1677 <= AssembledDate(r).year <= 2262
    ensures (ValidDate(AssembledDate(r)) && 1700 <= AssembledDate(r).year <= 2200
             && 0 <= r.hour < 24 && 0 <= r.minute < 60) ==> ValidStamp(r)
  {
    var d := AssembledDate(r);
    YearStartBounds(d.year);
    if ValidDate(d) {
      WithinYear(d);
    }
  }

  lemma {:induction false} YearStartBounds(y: int)
    ensures y >= 1970 ==> 365 * (y - 1970) <= YearStart(y) <= 366 * (y - 1970)
    ensures y < 1970 ==> 366 * (y - 1970) <= YearStart(y) <= 365 * (y - 1970)
    decreases if y < 1970 then 1970 - y else y - 1970
  {
    if y > 1970 {
      YearStartBounds(y - 1);
    } else if y < 1970 {
      YearStartBounds(y + 1);
    }
  }

  /** The day after a date. */
  function NextDay(d: Date): Date
    requires ValidDate(d)
  {
    if d.day < DaysInMonth(d.year, d.month) then d.(day := d.day + 1)
    else if d.month < 12 then Date(d.year, d.month + 1, 1)
    else Date(d.year + 1, 1, 1)
  }

  /** Readings stamp the same minute when their dates and minutes of the day agree, and a
      full day of minutes carries into the next date: 24:00 is the next day's 00:00. */
  lemma StampRollover(a: Reading, b: Reading)
    requires ValidDate(AssembledDate(a))
    ensures AssembledDate(b) == AssembledDate(a) && b.hour * 60 + b.minute == a.hour * 60 + a.minute
            ==> Stamp(a) == Stamp(b)
    ensures AssembledDate(b) == NextDay(AssembledDate(a)) && b.hour * 60 + b.minute + 1440 == a.hour * 60 + a.minute
            ==> Stamp(a) == Stamp(b)
  {
    DayNumberNext(AssembledDate(a));
  }

  /** For times within the day, two readings stamp the same minute exactly when they have
      the same date, hour and minute. */
  lemma StampInjective(a: Reading, b: Reading)
    requires ValidDate(AssembledDate(a)) && ValidDate(AssembledDate(b))
    requires 0 <= a.hour < 24 && 0 <= a.minute < 60 && 0 <= b.hour < 24 && 0 <= b.minute < 60
    ensures Stamp(a) == Stamp(b) <==>
              AssembledDate(a) == AssembledDate(b) && a.hour == b.hour && a.minute == b.minute
  {
    var da, db := DayNumber(AssembledDate(a)), DayNumber(AssembledDate(b));
    var ma, mb := a.hour * 60 + a.minute, b.hour * 60 + b.minute;
    DayNumberInjective(AssembledDate(a), AssembledDate(b));
    if da < db {
      assert da * 1440 + ma < db * 1440 + mb;
    } else if db < da {
      assert db * 1440 + mb < da * 1440 + ma;
    }
  }

  /** The next day is numbered one more. */
  lemma DayNumberNext(d: Date)
    requires ValidDate(d)
    ensures DayNumber(NextDay(d)) == DayNumber(d) + 1
  {
    if d.day == DaysInMonth(d.year, d.month) && d.month == 12 {
      YearStartStep(d.year);
      YearEnd(d.year);
    }
  }

  /** Distinct real dates are numbered differently, earlier ones lower. */
  lemma DayNumberInjective(a: Date, b: Date)
    requires ValidDate(a) && ValidDate(b)
    ensures Before(a, b) ==> DayNumber(a) < DayNumber(b)
    ensures DayNumber(a) == DayNumber(b) <==> a == b
  {
    if Before(a, b) {
      DayNumberBefore(a, b);
    } else if Before(b, a) {
      DayNumberBefore(b, a);
    }
  }

  lemma DayNumberBefore(a: Date, b: Date)
    requires ValidDate(a) && ValidDate(b) && Before(a, b)
    ensures DayNumber(a) < DayNumber(b)
  {
    if a.year < b.year {
      WithinYear(a);
      YearStartMonotone(a.year, b.year);
      MonthStartNonNegative(b.year, b.month);
    } else if a.month < b.month {
      MonthStartMonotone(a.year, a.month, b.month);
    }
  }

  lemma YearStartStep(y: int)
    ensures YearStart(y + 1) == YearStart(y) + DaysInYear(y)
  {
  }

  lemma {:induction false} YearStartMonotone(a: int, b: int)
    requires a < b
    ensures YearStart(a) + DaysInYear(a) <= YearStart(b)
    decreases b - a
  {
    YearStartStep(a);
    if a + 1 < b {
      YearStartMonotone(a + 1, b);
    }
  }

  /** A date's day within its year is below the year's length. */
  lemma WithinYear(d: Date)
    requires ValidDate(d)
    ensures 0 <= MonthStart(d.year, d.month) + d.day - 1 < DaysInYear(d.year)
  {
    MonthStartNonNegative(d.year, d.month);
    if d.month < 12 {
      MonthStartMonotone(d.year, d.month, 12);
    }
    YearEnd(d.year);
  }

  lemma {:induction false} MonthStartNonNegative(y: int, m: int)
    ensures MonthStart(y, m) >= 0
    decreases m
  {
    if 1 < m <= 12 {
      MonthStartNonNegative(y, m - 1);
    }
  }

  lemma {:induction false} MonthStartMonotone(y: int, m: int, n: int)
    requires 1 <= m < n <= 12
    ensures MonthStart(y, m) + DaysInMonth(y, m) <= MonthStart(y, n)
    decreases n - m
  {
    if m + 1 < n {
      MonthStartMonotone(y, m + 1, n);
    }
  }

  /** December starts 31 days before the year ends. */
  lemma YearEnd(y: int)
    ensures MonthStart(y, 12) + 31 == DaysInYear(y)
  {
    var feb := DaysInMonth(y, 2);
    assert MonthStart(y, 2) == 31;
    assert MonthStart(y, 3) == 31 + feb;
    assert MonthStart(y, 4) == 62 + feb;
    assert MonthStart(y, 5) == 92 + feb;
    assert MonthStart(y, 6) == 123 + feb;
    assert MonthStart(y, 7) == 153 + feb;
    assert MonthStart(y, 8) == 184 + feb;
    assert MonthStart(y, 9) == 215 + feb;
    assert MonthStart(y, 10) == 245 + feb;
    assert MonthStart(y, 11) == 276 + feb;
  }

  // ---------------------------------------------------------------------------
  // One sensor in one year: filter, then first-wins de-duplication
  // ---------------------------------------------------------------------------

  /** `df[df['year'] == y]` then `[... ['TAG'] == s]`: the readings of `s` in year `y`, in
      file order. */
  function Group(rs: seq<Reading>, y: int, s: string): (g: seq<Reading>)
    ensures |g| <= |rs|
  {
    if rs == [] then []
    else
      var r := rs[|rs| - 1];
      Group(rs[..|rs| - 1], y, s) + (if r.year == y && r.tag == s then [r] else [])
  }

  /** The group holds exactly the readings of that year and sensor, in file order. */
  lemma {:induction false} GroupSpec(rs: seq<Reading>, y: int, s: string)
    ensures forall r :: r in Group(rs, y, s) <==> r in rs && r.year == y && r.tag == s
  {
    if rs != [] {
      GroupSpec(rs[..|rs| - 1], y, s);
      assert rs == rs[..|rs| - 1] + [rs[|rs| - 1]];
    }
  }

  /** `set_index('datetime')` then `[~index.duplicated(keep='first')]`: the UI of the first
      reading at each timestamp. */
  function FirstWins(g: seq<Reading>): map<Timestamp, Cell> {
    if g == [] then map[]
    else
      var m := FirstWins(g[..|g| - 1]);
      var r := g[|g| - 1];
      if Stamp(r) in m then m else m[Stamp(r) := r.ui]
  }

  /** A timestamp is kept exactly when some reading carries it. */
  lemma {:induction false} FirstWinsDomain(g: seq<Reading>, t: Timestamp)
    ensures t in FirstWins(g) <==> exists i :: 0 <= i < |g| && Stamp(g[i]) == t
  {
    if g != [] {
      var init := g[..|g| - 1];
      FirstWinsDomain(init, t);
      if t in FirstWins(init) {
        var i :| 0 <= i < |init| && Stamp(init[i]) == t;
        assert Stamp(g[i]) == t;
      }
      if exists i :: 0 <= i < |g| && Stamp(g[i]) == t {
        var i :| 0 <= i < |g| && Stamp(g[i]) == t;
        if i < |init| {
          assert Stamp(init[i]) == t;
        }
      }
    }
  }

  /** The value kept at a timestamp is that of the first reading carrying it. */
  lemma {:induction false} FirstWinsValue(g: seq<Reading>, i: nat)
    requires i < |g| && forall j :: 0 <= j < i ==> Stamp(g[j]) != Stamp(g[i])
    ensures Stamp(g[i]) in FirstWins(g) && FirstWins(g)[Stamp(g[i])] == g[i].ui
  {
    var init := g[..|g| - 1];
    if i < |init| {
      FirstWinsValue(init, i);
    } else {
      FirstWinsDomain(init, Stamp(g[i]));
    }
  }

  // ---------------------------------------------------------------------------
  // One year: outer join of the sensors
  // ---------------------------------------------------------------------------

  /** A yearly table: one column per sensor in join order, the union of their timestamps
      as index, and each sensor's de-duplicated readings. */
  datatype YearTable = YearTable(columns: seq<string>, index: set<Timestamp>,
                                 data: map<string, map<Timestamp, Cell>>)

  /** Cell `(t, s)`: the reading kept for `s` at `t`, or missing. */
  function CellOf(table: YearTable, t: Timestamp, s: string): Cell {
    if s in table.data && t in table.data[s] then table.data[s][t] else None
  }

  /** `yearly_df.join(sensor_df, how='outer')` with the new sensor's column. */
  function OuterJoin(table: YearTable, s: string, column: map<Timestamp, Cell>): YearTable {
    YearTable(table.columns + [s], table.index + column.Keys, table.data[s := column])
  }

  /** The timestamps present in `rs` for year `y` and one of `sensors`. */
  predicate Stamped(rs: seq<Reading>, y: int, sensors: seq<string>, t: Timestamp) {
    exists i :: 0 <= i < |rs| && rs[i].year == y && rs[i].tag in sensors && Stamp(rs[i]) == t
  }

  /** The table of year `y` over `sensors`: the sensors joined one after the other onto an
      empty frame. */
  function YearTableOf(rs: seq<Reading>, y: int, sensors: seq<string>): YearTable {
    if sensors == [] then YearTable([], {}, map[])
    else
      var s := sensors[|sensors| - 1];
      OuterJoin(YearTableOf(rs, y, sensors[..|sensors| - 1]), s, FirstWins(Group(rs, y, s)))
  }

  /** The joined table has a column for each sensor, holding its de-duplicated readings. */
  lemma {:induction false} YearTableOfData(rs: seq<Reading>, y: int, sensors: seq<string>, s: string)
    ensures s in sensors <==> s in YearTableOf(rs, y, sensors).data
    ensures s in sensors ==> YearTableOf(rs, y, sensors).data[s] == FirstWins(Group(rs, y, s))
  {
    if sensors != [] {
      var init, last := sensors[..|sensors| - 1], sensors[|sensors| - 1];
      YearTableOfData(rs, y, init, s);
      assert sensors == init + [last];
    }
  }

  /** The joined table's index is every timestamp read that year by one of the sensors. */
  lemma {:induction false} YearTableOfIndex(rs: seq<Reading>, y: int, sensors: seq<string>, t: Timestamp)
    ensures t in YearTableOf(rs, y, sensors).index <==> Stamped(rs, y, sensors, t)
  {
    if sensors != [] {
      var init, last := sensors[..|sensors| - 1], sensors[|sensors| - 1];
      YearTableOfIndex(rs, y, init, t);
      JoinedStamps(rs, y, init, last, t);
      assert sensors == init + [last];
    }
  }

  /** The table of year `y`, built by the loop over the sensors. */
  method BuildYearTable(rs: seq<Reading>, y: int, sensors: seq<string>) returns (table: YearTable)
    ensures table == YearTableOf(rs, y, sensors)
    ensures table.columns == sensors
    ensures forall s :: s in sensors ==> s in table.data && table.data[s] == FirstWins(Group(rs, y, s))
  {
    table := YearTable([], {}, map[]);
    for k := 0 to |sensors|
      invariant table == YearTableOf(rs, y, sensors[..k])
      invariant table.columns == sensors[..k]
    {
      var s := sensors[k];
      assert sensors[..k + 1][..k] == sensors[..k];
      table := OuterJoin(table, s, FirstWins(Group(rs, y, s)));
    }
    assert sensors[..|sensors|] == sensors;
    forall s | s in sensors
      ensures s in table.data && table.data[s] == FirstWins(Group(rs, y, s))
    {
      YearTableOfData(rs, y, sensors, s);
    }
  }

  lemma JoinedStamps(rs: seq<Reading>, y: int, done: seq<string>, s: string, t: Timestamp)
    ensures (Stamped(rs, y, done, t) || t in FirstWins(Group(rs, y, s)))
            <==> Stamped(rs, y, done + [s], t)
  {
    var g := Group(rs, y, s);
    FirstWinsDomain(g, t);
    GroupSpec(rs, y, s);
    if t in FirstWins(g) {
      var i :| 0 <= i < |g| && Stamp(g[i]) == t;
      assert g[i] in g;
      var j :| 0 <= j < |rs| && rs[j] == g[i];
      assert rs[j].tag in done + [s];
    }
    if Stamped(rs, y, done + [s], t) && !Stamped(rs, y, done, t) {
      var i :| 0 <= i < |rs| && rs[i].year == y && rs[i].tag in done + [s] && Stamp(rs[i]) == t;
      assert rs[i].tag == s;
      assert rs[i] in g;
      var j :| 0 <= j < |g| && g[j] == rs[i];
    }
  }

  /** The cell of sensor `s` at the timestamp of its first reading there in year `y` holds
      that reading's UI; a timestamp where `s` has no reading that year is missing. */
  lemma YearTableCell(rs: seq<Reading>, y: int, sensors: seq<string>, table: YearTable, s: string, t: Timestamp)
    requires s in sensors
    requires forall s :: s in sensors ==> s in table.data && table.data[s] == FirstWins(Group(rs, y, s))
    ensures (forall r :: r in rs ==> !(r.year == y && r.tag == s && Stamp(r) == t)) ==> CellOf(table, t, s) == None
    ensures forall i :: 0 <= i < |Group(rs, y, s)| && Stamp(Group(rs, y, s)[i]) == t
                        && (forall j :: 0 <= j < i ==> Stamp(Group(rs, y, s)[j]) != t)
                        ==> CellOf(table, t, s) == Group(rs, y, s)[i].ui
  {
    var g := Group(rs, y, s);
    GroupSpec(rs, y, s);
    FirstWinsDomain(g, t);
    forall i | 0 <= i < |g| && Stamp(g[i]) == t && (forall j :: 0 <= j < i ==> Stamp(g[j]) != t)
      ensures CellOf(table, t, s) == g[i].ui
    {
      FirstWinsValue(g, i);
    }
  }

  // ---------------------------------------------------------------------------
  // Outputs
  // ---------------------------------------------------------------------------

  datatype Period = OneDay | OneWeek | OneMonth

  /** What a file under `parquet_data/static` holds. */
  datatype Output = Hourly(table: YearTable) | Resampled(period: Period, source: YearTable) | Text(content: string)

  /** `f'{prefix}_{year}'` */
  function OutputName(prefix: char, y: int): string { [prefix, '_'] + IntToString(y) }

  function HourlyName(y: int): string { OutputName('h', y) }
  function DailyName(y: int): string { OutputName('d', y) }
  function WeeklyName(y: int): string { OutputName('w', y) }
  function MonthlyName(y: int): string { OutputName('m', y) }

  const SensorListName := "all_sensors.txt"

  /** Two output names are equal only for the same prefix and year, and none of them is the
      sensor list. */
  lemma OutputNameInjective(p: char, y: int, q: char, z: int)
    ensures OutputName(p, y) == OutputName(q, z) <==> p == q && y == z
    ensures OutputName(p, y) != SensorListName
  {
    var a, b := OutputName(p, y), OutputName(q, z);
    assert a[0] == p && b[0] == q;
    if a == b {
      assert a[2..] == IntToString(y) && b[2..] == IntToString(z);
      IntToStringInjective(y, z);
    }
    assert SensorListName[1] == 'l';
  }

  /** The four files written for year `y`. */
  function YearOutputs(y: int, table: YearTable): map<string, Output> {
    map[HourlyName(y) := Hourly(table), DailyName(y) := Resampled(OneDay, table),
        WeeklyName(y) := Resampled(OneWeek, table), MonthlyName(y) := Resampled(OneMonth, table)]
  }

  /** Every exported row has a valid time (checked row by row, as `pd.to_datetime` does). */
  predicate ValidFile(rs: seq<Reading>) {
    rs == [] || (ValidFile(rs[..|rs| - 1]) && ValidStamp(rs[|rs| - 1]))
  }

  /** An export is accepted exactly when every one of its rows has a valid time. */
  lemma {:induction false} ValidFileSpec(rs: seq<Reading>)
    ensures ValidFile(rs) <==> forall i :: 0 <= i < |rs| ==> ValidStamp(rs[i])
  {
    if rs != [] {
      ValidFileSpec(rs[..|rs| - 1]);
      assert forall i :: 0 <= i < |rs| - 1 ==> rs[..|rs| - 1][i] == rs[i];
    }
  }

  /** The files written for the years `ys` of one export, in that order. */
  function FileOutputs(rs: seq<Reading>, ys: seq<int>): map<string, Output> {
    if ys == [] then map[]
    else FileOutputs(rs, ys[..|ys| - 1]) + YearOutputs(ys[|ys| - 1], YearTableOf(rs, ys[|ys| - 1], Unique(Tags(rs))))
  }

  /** The files written for an export: one set of four per year it contains. */
  function ExportOutputs(rs: seq<Reading>): map<string, Output> {
    FileOutputs(rs, Unique(Years(rs)))
  }

  /** The files written for a list of exports, a later export replacing what an earlier one
      wrote under the same name. */
  function AllOutputs(fileList: seq<seq<Reading>>): map<string, Output> {
    if fileList == [] then map[]
    else AllOutputs(fileList[..|fileList| - 1]) + ExportOutputs(fileList[|fileList| - 1])
  }

  /** Writing the four files of year `y` sets exactly that year's names. */
  lemma YearOutputsLookup(m: map<string, Output>, y: int, table: YearTable, z: int)
    ensures var w := m + YearOutputs(y, table);
            && HourlyName(y) in w && w[HourlyName(y)] == Hourly(table)
            && DailyName(y) in w && w[DailyName(y)] == Resampled(OneDay, table)
            && WeeklyName(y) in w && w[WeeklyName(y)] == Resampled(OneWeek, table)
            && MonthlyName(y) in w && w[MonthlyName(y)] == Resampled(OneMonth, table)
    ensures z != y ==>
            var w := m + YearOutputs(y, table);
            && (HourlyName(z) in w <==> HourlyName(z) in m)
            && (HourlyName(z) in m ==> w[HourlyName(z)] == m[HourlyName(z)])
  {
    OutputNameInjective('h', y, 'd', y);
    OutputNameInjective('h', y, 'w', y);
    OutputNameInjective('h', y, 'm', y);
    OutputNameInjective('d', y, 'w', y);
    OutputNameInjective('d', y, 'm', y);
    OutputNameInjective('w', y, 'm', y);
    OutputNameInjective('h', z, 'h', y);
    OutputNameInjective('h', z, 'd', y);
    OutputNameInjective('h', z, 'w', y);
    OutputNameInjective('h', z, 'm', y);
  }

  /** For every year of an export, its hourly output is that year's joined table; a year
      the export does not hold gets no output from it. */
  lemma {:induction false} FileOutputsSpec(rs: seq<Reading>, ys: seq<int>, y: int)
    ensures y in ys <==> HourlyName(y) in FileOutputs(rs, ys)
    ensures y in ys ==> FileOutputs(rs, ys)[HourlyName(y)] == Hourly(YearTableOf(rs, y, Unique(Tags(rs))))
  {
    if ys != [] {
      var init, last := ys[..|ys| - 1], ys[|ys| - 1];
      assert ys == init + [last];
      FileOutputsSpec(rs, init, y);
      YearOutputsLookup(FileOutputs(rs, init), last, YearTableOf(rs, last, Unique(Tags(rs))), y);
    }
  }

  /** Exports processed later win: the hourly output of year `y` is the table built from the
      last export in the list that contains `y`. */
  lemma {:induction false} LaterExportWins(fileList: seq<seq<Reading>>, k: nat, y: int)
    requires k < |fileList| && y in Years(fileList[k])
    requires forall j :: k < j < |fileList| ==> y !in Years(fileList[j])
    ensures HourlyName(y) in AllOutputs(fileList)
    ensures AllOutputs(fileList)[HourlyName(y)] == Hourly(YearTableOf(fileList[k], y, Unique(Tags(fileList[k]))))
  {
    var init, last := fileList[..|fileList| - 1], fileList[|fileList| - 1];
    UniqueMember(Years(fileList[k]), y);
    if k == |fileList| - 1 {
      FileOutputsSpec(last, Unique(Years(last)), y);
    } else {
      assert forall j :: k < j < |init| ==> init[j] == fileList[j];
      LaterExportWins(init, k, y);
      UniqueMember(Years(last), y);
      FileOutputsSpec(last, Unique(Years(last)), y);
    }
  }

  lemma FileOutputsStep(rs: seq<Reading>, ys: seq<int>, k: nat)
    requires k < |ys|
    ensures FileOutputs(rs, ys[..k + 1])
            == FileOutputs(rs, ys[..k]) + YearOutputs(ys[k], YearTableOf(rs, ys[k], Unique(Tags(rs))))
  {
    assert ys[..k + 1][..k] == ys[..k];
  }

  lemma AllOutputsStep(fileList: seq<seq<Reading>>, k: nat)
    requires k < |fileList|
    ensures AllOutputs(fileList[..k + 1]) == AllOutputs(fileList[..k]) + ExportOutputs(fileList[k])
  {
    assert fileList[..k + 1][..k] == fileList[..k];
  }

  lemma UnionAssoc<K, V>(a: map<K, V>, b: map<K, V>, c: map<K, V>)
    ensures (a + b) + c == a + (b + c)
  {
  }

  /** The output directory. Writing a name replaces what an earlier write left there. */
  class StaticStore {
    var files: map<string, Output>

    constructor ()
      ensures files == map[]
    {
      files := map[];
    }

    /** The four `to_parquet` calls for year `y`. */
    method WriteYear(y: int, table: YearTable)
      modifies this
      ensures files == old(files) + YearOutputs(y, table)
    {
      files := files[HourlyName(y) := Hourly(table)];
      files := files[DailyName(y) := Resampled(OneDay, table)];
      files := files[WeeklyName(y) := Resampled(OneWeek, table)];
      files := files[MonthlyName(y) := Resampled(OneMonth, table)];
    }

    method WriteText(name: string, content: string)
      modifies this
      ensures files == old(files)[name := Text(content)]
    {
      files := files[name := Text(content)];
    }

    /** One export: rejected whole when a row's time fields are not a valid time (nothing is
        written); otherwise the four outputs of each year present, years in order of first
        appearance. Returns the export's sensors in order of first appearance. */
    method ProcessFile(rs: seq<Reading>) returns (r: Result<seq<string>>)
      modifies this
      ensures r.Err? <==> !ValidFile(rs)
      ensures r.Err? ==> files == old(files)
      ensures r.Ok? ==> r.value == Unique(Tags(rs)) && files == old(files) + ExportOutputs(rs)
    {
      if !ValidFile(rs) {
        return Err(ValueError("cannot assemble the datetimes"));
      }
      var years := Unique(Years(rs));
      var sensors := Unique(Tags(rs));
      ghost var start := files;
      for k := 0 to |years|
        invariant files == start + FileOutputs(rs, years[..k])
      {
        var y := years[k];
        var table := BuildYearTable(rs, y, sensors);
        ghost var done := FileOutputs(rs, years[..k]);
        WriteYear(y, table);
        FileOutputsStep(rs, years, k);
        UnionAssoc(start, done, YearOutputs(y, table));
      }
      assert years[..|years|] == years;
      return Ok(sensors);
    }
  }

  function Years(rs: seq<Reading>): (ys: seq<int>)
    ensures |ys| == |rs| && forall i :: 0 <= i < |rs| ==> ys[i] == rs[i].year
  {
    seq(|rs|, i requires 0 <= i < |rs| => rs[i].year)
  }

  function Tags(rs: seq<Reading>): (ts: seq<string>)
    ensures |ts| == |rs| && forall i :: 0 <= i < |rs| ==> ts[i] == rs[i].tag
  {
    seq(|rs|, i requires 0 <= i < |rs| => rs[i].tag)
  }

  /** The first `k` exports are all accepted. */
  predicate ValidUpTo(fileList: seq<seq<Reading>>, k: nat)
    requires k <= |fileList|
  {
    k == 0 || (ValidUpTo(fileList, k - 1) && ValidFile(fileList[k - 1]))
  }

  lemma {:induction false} ValidUpToSpec(fileList: seq<seq<Reading>>, k: nat)
    requires k <= |fileList|
    ensures ValidUpTo(fileList, k) <==> forall j :: 0 <= j < k ==> ValidFile(fileList[j])
  {
    if k > 0 {
      ValidUpToSpec(fileList, k - 1);
    }
  }

  /** Export `k` is the first one holding an invalid time. */
  predicate FirstInvalid(fileList: seq<seq<Reading>>, k: nat) {
    k < |fileList| && !ValidFile(fileList[k]) && ValidUpTo(fileList, k)
  }

  /** The whole script: every export in turn, then the sensor list of the LAST export,
      joined by commas. With no export at all the sensor list file is still opened for
      writing, which empties it, and then the unbound name `sensors` fails the script; an export with an invalid time stops the script after the earlier exports
      were written. */
  method ProcessAll(store: StaticStore, fileList: seq<seq<Reading>>) returns (err: Option<Error>)
    modifies store
    ensures fileList == [] ==>
      err == Some(NameError("sensors")) && store.files == old(store.files)[SensorListName := Text("")]
    ensures err.None? <==> fileList != [] && ValidUpTo(fileList, |fileList|)
    ensures err.None? ==>
      store.files == (old(store.files) + AllOutputs(fileList))
                     [SensorListName := Text(Join(Unique(Tags(fileList[|fileList| - 1])), ','))]
    ensures err.Some? && fileList != [] ==>
      exists k: nat :: FirstInvalid(fileList, k) && store.files == old(store.files) + AllOutputs(fileList[..k])
  {
    var sensors: Option<seq<string>> := None;
    ghost var start := store.files;
    for k := 0 to |fileList|
      invariant k == 0 <==> sensors.None?
      invariant k > 0 ==> sensors == Some(Unique(Tags(fileList[k - 1])))
      invariant ValidUpTo(fileList, k)
      invariant store.files == start + AllOutputs(fileList[..k])
    {
      ghost var done := AllOutputs(fileList[..k]);
      var r := store.ProcessFile(fileList[k]);
      if r.Err? {
        assert FirstInvalid(fileList, k);
        ValidUpToSpec(fileList, |fileList|);
        return Some(r.error);
      }
      AllOutputsStep(fileList, k);
      UnionAssoc(start, done, ExportOutputs(fileList[k]));
      sensors := Some(r.value);
    }
    assert fileList[..|fileList|] == fileList;
    if sensors.None? {
      // the list file is opened for writing (and so emptied) before `sensors` is read
      store.WriteText(SensorListName, "");
      return Some(NameError("sensors"));
    }
    store.WriteText(SensorListName, Join(sensors.value, ','));
    return None;
  }

  /** The sensor list names each sensor of the last export once, and splits back into them
      when no tag contains a comma. */
  lemma SensorListSplits(rs: seq<Reading>)
    requires rs != []
    requires forall i :: 0 <= i < |rs| ==> ',' !in rs[i].tag
    ensures Split(Join(Unique(Tags(rs)), ','), ',') == Unique(Tags(rs))
  {
    var u := Unique(Tags(rs));
    UniqueMember(Tags(rs), rs[0].tag);
    assert |u| >= 1 by {
      assert rs[0].tag in u;
    }
    forall k | 0 <= k < |u| ensures ',' !in u[k] {
      UniqueMember(Tags(rs), u[k]);
      assert u[k] in u;
    }
    SplitJoin(u, ',');
  }
}
