/** Python's `datetime.strptime` for the three formats the core parses: satellite column
    labels `D%Y%m%d`, levelling epochs `%Y-%m` and stabilisation dates `%d/%m/%Y`.

    `strptime` compiles the format into a regular expression, matched case-insensitively
    from the start of the text: `%Y` is exactly four digits, `%m` the alternatives
    `1[0-2] | 0[1-9] | [1-9]` and `%d` the alternatives `3[01] | [12]\d | 0[1-9] | [1-9] | ' '[1-9]`,
    tried in that order with backtracking. The first complete match wins even when it stops
    short of the end of the text, which is then an "unconverted data remains" error; the
    fields default to 1900-01-01 and the result must be a real calendar date. */
module Dates {
  import opened Common

  datatype Date = Date(year: int, month: int, day: int)

  predicate IsLeap(y: int) {
    y % 4 == 0 && (y % 100 != 0 || y % 400 == 0)
  }

  function DaysInMonth(y: int, m: int): (n: int)
    requires 1 <= m <= 12
    ensures 28 <= n <= 31
  {
    if m == 2 then (if IsLeap(y) then 29 else 28)
    else if m == 4 || m == 6 || m == 9 || m == 11 then 30
    else 31
  }

  /** A date `datetime.date` accepts. */
  predicate ValidDate(d: Date) {
    1 <= d.year <= 9999 && 1 <= d.month <= 12 && 1 <= d.day <= DaysInMonth(d.year, d.month)
  }

  /** Chronological order. */
  predicate Before(a: Date, b: Date) {
    a.year < b.year || (a.year == b.year && (a.month < b.month || (a.month == b.month && a.day < b.day)))
  }

  // ---------------------------------------------------------------------------
  // Formats
  // ---------------------------------------------------------------------------

  datatype Directive = Lit(c: char) | Year4 | Month | Day

  type Format = seq<Directive>

  /** `'D%Y%m%d'` */
  const SatelliteLabel: Format := [Lit('D'), Year4, Month, Day]
  /** `'%Y-%m'` */
  const EpochFormat: Format := [Year4, Lit('-'), Month]
  /** `'%d/%m/%Y'` */
  const DayFirst: Format := [Day, Lit('/'), Month, Lit('/'), Year4]

  /** One way a directive can match at a position: the value read and the characters used. */
  datatype Piece = Piece(value: nat, len: nat)

  /** A two-character alternative `[lo1-hi1][lo2-hi2]` read as a two-digit number. */
  function Pair(s: string, pos: nat, lo1: char, hi1: char, lo2: char, hi2: char): seq<Piece>
    requires '0' <= lo1 && hi1 <= '9' && '0' <= lo2 && hi2 <= '9'
  {
    if pos + 2 <= |s| && lo1 <= s[pos] <= hi1 && lo2 <= s[pos + 1] <= hi2
    then [Piece(DigitValue(s[pos]) * 10 + DigitValue(s[pos + 1]), 2)]
    else []
  }

  /** The alternative `[1-9]`, or `' '[1-9]` when `space` is set. */
  function NonZero(s: string, pos: nat, space: bool): seq<Piece> {
    var at := if space then pos + 1 else pos;
    if at < |s| && (space ==> s[pos] == ' ') && '1' <= s[at] <= '9'
    then [Piece(DigitValue(s[at]), at + 1 - pos)]
    else []
  }

  /** Case-insensitive comparison of a literal (ASCII letters only). */
  predicate SameLetter(a: char, b: char) {
    UpperChar(a) == UpperChar(b)
  }

  /** The ways `dir` matches `s` at `pos`, in the order the regular expression tries them. */
  function Alternatives(dir: Directive, s: string, pos: nat): (alts: seq<Piece>)
    ensures forall a :: a in alts ==> 1 <= a.len && pos + a.len <= |s|
  {
    match dir
    case Lit(c) =>
      if pos < |s| && SameLetter(s[pos], c) then [Piece(0, 1)] else []
    case Year4 =>
      if pos + 4 <= |s| && AllDigits(s[pos..pos + 4])
      then [Piece(DigitsValue(s[pos..pos + 4]), 4)] else []
    case Month =>
      Pair(s, pos, '1', '1', '0', '2') + Pair(s, pos, '0', '0', '1', '9') + NonZero(s, pos, false)
    case Day =>
      Pair(s, pos, '3', '3', '0', '1') + Pair(s, pos, '1', '2', '0', '9')
      + Pair(s, pos, '0', '0', '1', '9') + NonZero(s, pos, false) + NonZero(s, pos, true)
  }

  datatype Fields = Fields(year: Option<nat>, month: Option<nat>, day: Option<nat>)

  const NoFields := Fields(None, None, None)

  function Assign(acc: Fields, dir: Directive, v: nat): Fields {
    match dir
    case Lit(_) => acc
    case Year4 => acc.(year := Some(v))
    case Month => acc.(month := Some(v))
    case Day => acc.(day := Some(v))
  }

  /** The first match of `fmt` at `pos`, with backtracking: the fields read and where it ends. */
  function Match(fmt: Format, s: string, pos: nat, acc: Fields): (r: Option<(Fields, nat)>)
    decreases |fmt|, 1, 0
  {
    if fmt == [] then Some((acc, pos))
    else FirstOf(fmt, s, pos, acc, Alternatives(fmt[0], s, pos))
  }

  function FirstOf(fmt: Format, s: string, pos: nat, acc: Fields, alts: seq<Piece>): Option<(Fields, nat)>
    requires fmt != []
    decreases |fmt|, 0, |alts|
  {
    if alts == [] then None
    else match Match(fmt[1..], s, pos + alts[0].len, Assign(acc, fmt[0], alts[0].value))
      case Some(r) => Some(r)
      case None => FirstOf(fmt, s, pos, acc, alts[1..])
  }

  function OrDefault(v: Option<nat>, default: nat): nat {
    if v.Some? then v.value else default
  }

  /** `datetime.strptime(s, fmt)` */
  function Strptime(fmt: Format, s: string): (r: Result<Date>)
    ensures r.Ok? ==> ValidDate(r.value)
  {
    match Match(fmt, s, 0, NoFields)
    case None => Err(ValueError("time data does not match format"))
    case Some((f, end)) =>
      if end != |s| then Err(ValueError("unconverted data remains"))
      else
        var d := Date(OrDefault(f.year, 1900), OrDefault(f.month, 1), OrDefault(f.day, 1));
        if ValidDate(d) then Ok(d) else Err(ValueError("day is out of range for month"))
  }

  // ---------------------------------------------------------------------------
  // Canonical rendering (strftime with zero padding)
  // ---------------------------------------------------------------------------

  function TwoDigits(n: nat): string
    requires n < 100
  {
    [DigitChar(n / 10), DigitChar(n % 10)]
  }

  function FourDigits(n: nat): string
    requires n < 10000
  {
    [DigitChar(n / 10 / 10 / 10), DigitChar(n / 10 / 10 % 10), DigitChar(n / 10 % 10), DigitChar(n % 10)]
  }

  function ValueOf(dir: Directive, d: Date): nat
    requires ValidDate(d)
  {
    match dir
    case Lit(_) => 0
    case Year4 => d.year
    case Month => d.month
    case Day => d.day
  }

  function RenderOne(dir: Directive, d: Date): string
    requires ValidDate(d)
  {
    match dir
    case Lit(c) => [c]
    case Year4 => FourDigits(d.year)
    case Month => TwoDigits(d.month)
    case Day => TwoDigits(d.day)
  }

  /** `d.strftime(fmt)`, every field zero-padded to its full width. */
  function Strftime(fmt: Format, d: Date): string
    requires ValidDate(d)
  {
    if fmt == [] then [] else RenderOne(fmt[0], d) + Strftime(fmt[1..], d)
  }

  /** The fields a complete match of `fmt` against the rendering of `d` yields. */
  function Fill(acc: Fields, fmt: Format, d: Date): Fields
    requires ValidDate(d)
    decreases |fmt|
  {
    if fmt == [] then acc else Fill(Assign(acc, fmt[0], ValueOf(fmt[0], d)), fmt[1..], d)
  }

  lemma FourDigitsValue(t: string)
    requires |t| == 4 && AllDigits(t)
    ensures DigitsValue(t)
            == DigitValue(t[0]) * 1000 + DigitValue(t[1]) * 100 + DigitValue(t[2]) * 10 + DigitValue(t[3])
  {
    assert DigitsValue(t[..1]) == DigitValue(t[0]) by {
      assert t[..1][..0] == [];
    }
    assert DigitsValue(t[..2]) == DigitsValue(t[..1]) * 10 + DigitValue(t[1]) by {
      assert t[..2][..1] == t[..1];
    }
    assert DigitsValue(t[..3]) == DigitsValue(t[..2]) * 10 + DigitValue(t[2]) by {
      assert t[..3][..2] == t[..2];
    }
    assert t[..4] == t;
  }

  lemma YearAlternative(y: nat, s: string, pos: nat)
    requires 1 <= y <= 9999
    requires pos + 4 <= |s| && s[pos..pos + 4] == FourDigits(y)
    ensures Alternatives(Year4, s, pos) == [Piece(y, 4)]
  {
    var t := FourDigits(y);
    FourDigitsValue(t);
    var q1 := y / 10;
    var q2 := q1 / 10;
    assert y == q1 * 10 + y % 10 && q1 == q2 * 10 + q1 % 10 && q2 == q2 / 10 * 10 + q2 % 10;
    assert DigitsValue(t) == y;
  }

  lemma MonthAlternative(m: nat, s: string, pos: nat)
    requires 1 <= m <= 12
    requires pos + 2 <= |s| && s[pos] == DigitChar(m / 10) && s[pos + 1] == DigitChar(m % 10)
    ensures Alternatives(Month, s, pos) != [] && Alternatives(Month, s, pos)[0] == Piece(m, 2)
  {
    if m < 10 {
      assert Pair(s, pos, '1', '1', '0', '2') == [];
    }
  }

  lemma DayAlternative(n: nat, s: string, pos: nat)
    requires 1 <= n <= 31
    requires pos + 2 <= |s| && s[pos] == DigitChar(n / 10) && s[pos + 1] == DigitChar(n % 10)
    ensures Alternatives(Day, s, pos) != [] && Alternatives(Day, s, pos)[0] == Piece(n, 2)
  {
    if n < 30 {
      assert Pair(s, pos, '3', '3', '0', '1') == [];
      if n < 10 {
        assert Pair(s, pos, '1', '2', '0', '9') == [];
      }
    }
  }

  /** On rendered text, the first alternative the regular expression tries for a directive
      is the one that reads back the whole rendered field. */
  lemma FirstAlternative(dir: Directive, d: Date, s: string, pos: nat)
    requires ValidDate(d)
    requires pos + |RenderOne(dir, d)| <= |s| && s[pos..pos + |RenderOne(dir, d)|] == RenderOne(dir, d)
    ensures Alternatives(dir, s, pos) != []
    ensures Alternatives(dir, s, pos)[0] == Piece(ValueOf(dir, d), |RenderOne(dir, d)|)
  {
    var text := RenderOne(dir, d);
    assert s[pos] == text[0];
    match dir {
      case Lit(c) =>
      case Year4 =>
        YearAlternative(d.year, s, pos);
      case Month =>
        assert s[pos + 1] == text[1];
        MonthAlternative(d.month, s, pos);
      case Day =>
        assert s[pos + 1] == text[1];
        DayAlternative(d.day, s, pos);
    }
  }

  /** Matching rendered text succeeds on its first attempt and consumes all of it. */
  lemma {:induction false} MatchRendered(fmt: Format, d: Date, s: string, pos: nat, acc: Fields)
    requires ValidDate(d)
    requires pos + |Strftime(fmt, d)| == |s| && s[pos..] == Strftime(fmt, d)
    ensures Match(fmt, s, pos, acc) == Some((Fill(acc, fmt, d), |s|))
    decreases |fmt|
  {
    if fmt != [] {
      var piece := RenderOne(fmt[0], d);
      assert s[pos..pos + |piece|] == piece by {
        assert s[pos..][..|piece|] == piece;
      }
      FirstAlternative(fmt[0], d, s, pos);
      assert s[pos + |piece|..] == Strftime(fmt[1..], d) by {
        assert s[pos..][|piece|..] == Strftime(fmt[1..], d);
      }
      MatchRendered(fmt[1..], d, s, pos + |piece|, Assign(acc, fmt[0], ValueOf(fmt[0], d)));
    }
  }

  /** Any valid date, rendered as a satellite label, parses back to itself. */
  lemma {:induction false} SatelliteLabelRoundTrip(d: Date)
    requires ValidDate(d)
    ensures Strptime(SatelliteLabel, Strftime(SatelliteLabel, d)) == Ok(d)
  {
    var s := Strftime(SatelliteLabel, d);
    MatchRendered(SatelliteLabel, d, s, 0, NoFields);
    assert SatelliteLabel[1..][1..][1..][1..] == [];
  
  }

  /** A valid first-of-month date, rendered as `YYYY-MM`, parses back to itself. */
  lemma {:induction false} EpochRoundTrip(d: Date)
    requires ValidDate(d) && d.day == 1
    ensures Strptime(EpochFormat, Strftime(EpochFormat, d)) == Ok(d)
  {
    var s := Strftime(EpochFormat, d);
    MatchRendered(EpochFormat, d, s, 0, NoFields);
    assert EpochFormat[1..][1..][1..] == [];
  }

  /** Any valid date, rendered as `DD/MM/YYYY`, parses back to itself: the day comes first. */
  lemma {:induction false} DayFirstRoundTrip(d: Date)
    requires ValidDate(d)
    ensures Strptime(DayFirst, Strftime(DayFirst, d)) == Ok(d)
  {
    var s := Strftime(DayFirst, d);
    MatchRendered(DayFirst, d, s, 0, NoFields);
    assert DayFirst[1..][1..][1..][1..][1..] == [];
  }

  /** Parsing a satellite label and rendering the date again is a normalisation: the
      rendered label parses to the same date. */
  lemma SatelliteLabelNormalises(s: string)
    requires Strptime(SatelliteLabel, s).Ok?
    ensures Strptime(SatelliteLabel, Strftime(SatelliteLabel, Strptime(SatelliteLabel, s).value))
            == Strptime(SatelliteLabel, s)
  {
    SatelliteLabelRoundTrip(Strptime(SatelliteLabel, s).value);
  }

  /** Reading a satellite label: a `D` in either case, then four digits for the year. */
  lemma SatellitePrefix(s: string)
    requires |s| >= 5 && SameLetter(s[0], 'D') && AllDigits(s[1..5])
    ensures Match(SatelliteLabel, s, 0, NoFields)
            == Match([Month, Day], s, 5, Fields(Some(DigitsValue(s[1..5])), None, None))
  {
    var y := DigitsValue(s[1..5]);
    var rest := Match([Month, Day], s, 5, Fields(Some(y), None, None));
    assert Alternatives(Year4, s, 1) == [Piece(y, 4)];
    assert [Year4, Month, Day][1..] == [Month, Day];
    assert FirstOf([Year4, Month, Day], s, 1, NoFields, [Piece(y, 4)]) == rest;
    assert Match([Year4, Month, Day], s, 1, NoFields) == rest;
    assert Alternatives(Lit('D'), s, 0) == [Piece(0, 1)];
    assert SatelliteLabel[1..] == [Year4, Month, Day];
    assert FirstOf(SatelliteLabel, s, 0, NoFields, [Piece(0, 1)]) == rest;
  }

  /** Labels need not be canonical: the unpadded label "D2020115" is accepted, read as
      2020-11-05 (the month takes "11" because `1[0-2]` is tried first), and renders back as
      "D20201105", not as itself. */
  lemma UnpaddedLabel()
    ensures Strptime(SatelliteLabel, "D2020115") == Ok(Date(2020, 11, 5))
    ensures Strftime(SatelliteLabel, Date(2020, 11, 5)) == "D20201105"
  {
    var s := "D2020115";
    FourDigitsValue(s[1..5]);
    assert Alternatives(Month, s, 5)[0] == Piece(11, 2);
    assert Alternatives(Day, s, 7)[0] == Piece(5, 1);
    MonthDayAt(s, 2020, 11, 5, 8);
    LabelParse(s, 2020, 11, 5, 8);
    PaddedRendering();
  }

  /** The date of the unpadded label, rendered with every field padded. */
  lemma PaddedRendering()
    ensures Strftime(SatelliteLabel, Date(2020, 11, 5)) == "D20201105"
  {
    var d := Date(2020, 11, 5);
    assert SatelliteLabel[1..][1..][1..][1..] == [];
    assert Strftime([Day], d) == "05";
    assert Strftime([Month, Day], d) == "11" + "05";
    assert Strftime([Year4, Month, Day], d) == "2020" + "1105";
  }

  /** The literal `D` is matched ignoring case. */
  lemma LowerCaseLabel()
    ensures Strptime(SatelliteLabel, "d20201105") == Ok(Date(2020, 11, 5))
  {
    var t := "d20201105";
    FourDigitsValue(t[1..5]);
    assert Alternatives(Month, t, 5)[0] == Piece(11, 2);
    assert Alternatives(Day, t, 7)[0] == Piece(5, 2);
    MonthDayAt(t, 2020, 11, 5, 9);
    LabelParse(t, 2020, 11, 5, 9);
  }

  /** Text left over after a complete match is refused. */
  lemma TrailingTextRefused()
    ensures Strptime(SatelliteLabel, "D20201105X") == Err(ValueError("unconverted data remains"))
  {
    var s := "D20201105X";
    FourDigitsValue(s[1..5]);
    assert Alternatives(Month, s, 5)[0] == Piece(11, 2);
    assert Alternatives(Day, s, 7)[0] == Piece(5, 2);
    MonthDayAt(s, 2020, 11, 5, 9);
    LabelParse(s, 2020, 11, 5, 9);
  }

  /** A day the month does not have is refused (2021 is not a leap year). */
  lemma MissingDayRefused()
    ensures Strptime(SatelliteLabel, "D20210229") == Err(ValueError("day is out of range for month"))
  {
    var t := "D20210229";
    FourDigitsValue(t[1..5]);
    assert Alternatives(Month, t, 5)[0] == Piece(2, 2);
    assert Alternatives(Day, t, 7)[0] == Piece(29, 2);
    MonthDayAt(t, 2021, 2, 29, 9);
    LabelParse(t, 2021, 2, 29, 9);
  }

  /** A label's month and day, read after its year from the first alternatives tried. */
  lemma MonthDayAt(s: string, y: nat, m: nat, d: nat, end: nat)
    requires 7 < end
    requires Alternatives(Month, s, 5) != [] && Alternatives(Month, s, 5)[0] == Piece(m, 2)
    requires Alternatives(Day, s, 7) != [] && Alternatives(Day, s, 7)[0] == Piece(d, end - 7)
    ensures Match([Month, Day], s, 5, Fields(Some(y), None, None)) == Some((Fields(Some(y), Some(m), Some(d)), end))
  {
    LeadingMatch([Day], s, 7, Fields(Some(y), Some(m), None));
    LeadingMatch([Month, Day], s, 5, Fields(Some(y), None, None));
  }

  /** A label whose year digits read `y` and whose month and day read `m` and `d`, ending
      at `end`: what `strptime` makes of it. */
  lemma LabelParse(s: string, y: nat, m: nat, d: nat, end: nat)
    requires |s| >= 5 && SameLetter(s[0], 'D') && AllDigits(s[1..5]) && DigitsValue(s[1..5]) == y
    requires Match([Month, Day], s, 5, Fields(Some(y), None, None)) == Some((Fields(Some(y), Some(m), Some(d)), end))
    ensures Strptime(SatelliteLabel, s)
            == if end != |s| then Err(ValueError("unconverted data remains"))
               else if ValidDate(Date(y, m, d)) then Ok(Date(y, m, d))
               else Err(ValueError("day is out of range for month"))
  {
    SatellitePrefix(s);
  }

  /** When the first way the leading directive matches lets the rest match, that is the
      match. */
  lemma LeadingMatch(fmt: Format, s: string, pos: nat, acc: Fields)
    requires fmt != [] && Alternatives(fmt[0], s, pos) != []
    requires var a := Alternatives(fmt[0], s, pos)[0];
             Match(fmt[1..], s, pos + a.len, Assign(acc, fmt[0], a.value)).Some?
    ensures var a := Alternatives(fmt[0], s, pos)[0];
            Match(fmt, s, pos, acc) == Match(fmt[1..], s, pos + a.len, Assign(acc, fmt[0], a.value))
  {
  }
}
