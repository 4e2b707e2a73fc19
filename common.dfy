/** Shared vocabulary: optional values, the exceptions the Python code raises,
    and the handful of Python string operations the core relies on. */
module Common {

  datatype Option<+T> = None | Some(value: T)

  /** The Python exception classes raised by the modelled code. */
  datatype Error =
    | KeyError(key: string)
    | ValueError(message: string)
    | IndexError(message: string)
    | NameError(name: string)
    | TypeError(message: string)
    | InvalidIndexError(message: string)

  datatype Result<+T> = Ok(value: T) | Err(error: Error)

  // ---------------------------------------------------------------------------
  // Prefixes and suffixes (str.startswith / str.endswith)
  // ---------------------------------------------------------------------------

  predicate StartsWith(s: string, p: string) {
    |p| <= |s| && s[..|p|] == p
  }

  predicate EndsWith(s: string, p: string) {
    |p| <= |s| && s[|s| - |p|..] == p
  }

  /** `s[0] == c` for a non-empty string; Python raises IndexError on `""[0]`. */
  predicate FirstCharIs(s: string, c: char)
    requires s != []
  {
    s[0] == c
  }

  // ---------------------------------------------------------------------------
  // str.upper on ASCII letters
  // ---------------------------------------------------------------------------

  function UpperChar(c: char): (u: char)
    ensures 'a' <= c <= 'z' ==> 'A' <= u <= 'Z'
    ensures !('a' <= c <= 'z') ==> u == c
  {
    if 'a' <= c <= 'z' then (c as int - 32) as char else c
  }

  function Upper(s: string): (u: string)
    ensures |u| == |s|
    ensures forall i :: 0 <= i < |s| ==> u[i] == UpperChar(s[i])
  {
    if s == [] then [] else [UpperChar(s[0])] + Upper(s[1..])
  }
  /** A string upper-casing leaves alone is its own upper case. */
  lemma UpperId(s: string)
    requires forall k :: 0 <= k < |s| ==> UpperChar(s[k]) == s[k]
    ensures Upper(s) == s
  {
  }

  lemma UpperConcat(a: string, b: string)
    ensures Upper(a + b) == Upper(a) + Upper(b)
  {
    var l, r := Upper(a + b), Upper(a) + Upper(b);
    forall k | 0 <= k < |l|
      ensures l[k] == r[k]
    {
      if k < |a| {
        assert (a + b)[k] == a[k];
      } else {
        assert (a + b)[k] == b[k - |a|];
      }
    }
  }


  // ---------------------------------------------------------------------------
  // str.replace(pat, "") and str.split(sep)[-1]
  // ---------------------------------------------------------------------------

  /** `s.replace(pat, "")`: every non-overlapping occurrence, scanning left to right. */
  function RemoveAll(s: string, pat: string): string
    requires pat != []
    decreases |s|
  {
    if |s| < |pat| then s
    else if s[..|pat|] == pat then RemoveAll(s[|pat|..], pat)
    else [s[0]] + RemoveAll(s[1..], pat)
  }

  /** A string that does not contain the first character of `pat` is left as it is. */
  lemma {:induction false} RemoveAllAbsent(s: string, pat: string)
    requires pat != [] && pat[0] !in s
    ensures RemoveAll(s, pat) == s
    decreases |s|
  {
    if |s| >= |pat| {
      assert s[..|pat|][0] == s[0];
      assert s[1..] == s[1..] && forall c :: c in s[1..] ==> c in s;
      RemoveAllAbsent(s[1..], pat);
    }
  }

  /** A character that is not part of `pat` survives the removal. */
  lemma {:induction false} RemoveAllKeeps(s: string, pat: string, c: char)
    requires pat != [] && c in s && c !in pat
    ensures c in RemoveAll(s, pat)
    decreases |s|
  {
    if |s| >= |pat| {
      if s[..|pat|] == pat {
        var k :| 0 <= k < |s| && s[k] == c;
        assert k >= |pat|;
        assert s[|pat|..][k - |pat|] == c;
        RemoveAllKeeps(s[|pat|..], pat, c);
      } else if s[0] != c {
        var k :| 0 <= k < |s| && s[k] == c;
        assert s[1..][k - 1] == c;
        RemoveAllKeeps(s[1..], pat, c);
      }
    }
  }

  /** `s.split(sep)[-1]`: the text after the last separator (all of `s` when there is none). */
  function AfterLast(s: string, sep: char): (r: string)
    ensures sep !in r
    ensures |r| <= |s| && r == s[|s| - |r|..]
  {
    if s == [] then []
    else if s[|s| - 1] == sep then []
    else AfterLast(s[..|s| - 1], sep) + [s[|s| - 1]]
  }

  lemma {:induction false} AfterLastNoSep(s: string, sep: char)
    requires sep !in s
    ensures AfterLast(s, sep) == s
  {
    if s != [] {
      assert forall c :: c in s[..|s| - 1] ==> c in s;
      AfterLastNoSep(s[..|s| - 1], sep);
    }
  }

  lemma {:induction false} AfterLastAppend(dir: string, sep: char, name: string)
    requires sep !in name
    ensures AfterLast(dir + [sep] + name, sep) == name
    decreases |name|
  {
    var s := dir + [sep] + name;
    if name == [] {
      assert s[|s| - 1] == sep;
    } else {
      var init := name[..|name| - 1];
      var last := name[|name| - 1];
      assert s[..|s| - 1] == dir + [sep] + init;
      assert sep !in init by {
        assert forall c :: c in init ==> c in name;
      }
      AfterLastAppend(dir, sep, init);
      assert s[|s| - 1] == last && last != sep;
      calc {
        AfterLast(s, sep);
        AfterLast(s[..|s| - 1], sep) + [last];
        init + [last];
        { assert init + [last] == name; }
        name;
      }
    }
  }

  lemma AfterLastUnfold(u: string, sep: char)
    requires u != [] && u[|u| - 1] != sep
    ensures AfterLast(u, sep) == AfterLast(u[..|u| - 1], sep) + [u[|u| - 1]]
  {
  }

  /** Text after the last separator grows with a separator-free tail. */
  lemma {:induction false} AfterLastKeepsTail(s: string, t: string, sep: char)
    requires sep !in t
    ensures AfterLast(s + t, sep) == AfterLast(s, sep) + t
    decreases |t|
  {
    if t == [] {
      assert s + t == s;
    } else {
      var init, last := t[..|t| - 1], t[|t| - 1];
      var u := s + t;
      assert u[..|u| - 1] == s + init;
      assert last in t;
      assert sep !in init by {
        assert forall c :: c in init ==> c in t;
      }
      AfterLastKeepsTail(s, init, sep);
      AfterLastUnfold(u, sep);
      assert AfterLast(s, sep) + init + [last] == AfterLast(s, sep) + t;
    }
  }

  // ---------------------------------------------------------------------------
  // ",".join(parts) and text.split(",")
  // ---------------------------------------------------------------------------

  function Join(parts: seq<string>, sep: char): string {
    if |parts| == 0 then ""
    else if |parts| == 1 then parts[0]
    else parts[0] + [sep] + Join(parts[1..], sep)
  }

  /** `s.split(sep)`: always at least one piece. */
  function Split(s: string, sep: char): (pieces: seq<string>)
    ensures |pieces| >= 1
    ensures forall i :: 0 <= i < |pieces| ==> sep !in pieces[i]
  {
    if s == [] then [""]
    else
      var rest := Split(s[1..], sep);
      if s[0] == sep then [""] + rest
      else [[s[0]] + rest[0]] + rest[1..]
  }

  lemma {:induction false} SplitPrefix(a: string, sep: char, b: string)
    requires sep !in a
    ensures Split(a + [sep] + b, sep) == [a] + Split(b, sep)
    decreases |a|
  {
    if a == [] {
      assert ([] + [sep] + b)[1..] == b;
    } else {
      var s := a + [sep] + b;
      assert s[1..] == a[1..] + [sep] + b;
      assert forall c :: c in a[1..] ==> c in a;
      SplitPrefix(a[1..], sep, b);
      assert [a[0]] + a[1..] == a;
    }
  }

  lemma {:induction false} SplitNoSep(a: string, sep: char)
    requires sep !in a
    ensures Split(a, sep) == [a]
    decreases |a|
  {
    if a != [] {
      assert forall c :: c in a[1..] ==> c in a;
      SplitNoSep(a[1..], sep);
      assert [a[0]] + a[1..] == a;
    }
  }

  /** Reading back a joined list gives the list, provided no part holds the separator. */
  lemma {:induction false} SplitJoin(parts: seq<string>, sep: char)
    requires |parts| >= 1
    requires forall i :: 0 <= i < |parts| ==> sep !in parts[i]
    ensures Split(Join(parts, sep), sep) == parts
  {
    if |parts| == 1 {
      SplitNoSep(parts[0], sep);
    } else {
      SplitJoin(parts[1..], sep);
      SplitPrefix(parts[0], sep, Join(parts[1..], sep));
      assert [parts[0]] + parts[1..] == parts;
    }
  }

  // ---------------------------------------------------------------------------
  // Decimal text: str(int) and int(text)
  // ---------------------------------------------------------------------------

  predicate IsDigit(c: char) {
    '0' <= c <= '9'
  }

  predicate AllDigits(s: string) {
    forall i :: 0 <= i < |s| ==> IsDigit(s[i])
  }

  function DigitChar(d: nat): (c: char)
    requires d < 10
    ensures IsDigit(c) && c as int - '0' as int == d
  {
    ('0' as int + d) as char
  }

  function DigitValue(c: char): nat
    requires IsDigit(c)
  {
    c as int - '0' as int
  }

  /** The value of a string of decimal digits (no sign). */
  function DigitsValue(s: string): nat
    requires AllDigits(s)
  {
    if s == [] then 0 else DigitsValue(s[..|s| - 1]) * 10 + DigitValue(s[|s| - 1])
  }

  /** `str(n)` for a non-negative integer: decimal digits without leading zeros. */
  function NatToString(n: nat): (s: string)
    ensures 1 <= |s| && AllDigits(s)
  {
    if n < 10 then [DigitChar(n)] else NatToString(n / 10) + [DigitChar(n % 10)]
  }

  lemma {:induction false} NatToStringValue(n: nat)
    ensures DigitsValue(NatToString(n)) == n
  {
    var s := NatToString(n);
    if n < 10 {
      assert s[..|s| - 1] == [];
    } else {
      NatToStringValue(n / 10);
      assert s[..|s| - 1] == NatToString(n / 10);
    }
  }

  /** `str(i)` for a Python int. */
  function IntToString(i: int): string {
    if i < 0 then "-" + NatToString(-i) else NatToString(i)
  }

  /** A decimal text holds digits and a minus sign only, which upper-casing leaves alone. */
  lemma IntToStringChars(y: int)
    ensures forall c :: c in IntToString(y) ==> IsDigit(c) || c == '-'
    ensures forall k :: 0 <= k < |IntToString(y)| ==> UpperChar(IntToString(y)[k]) == IntToString(y)[k]
  {
  }

  /** `int(text)` for an optional sign followed by decimal digits. */
  function ParseInt(text: string): (r: Result<int>)
    ensures r.Ok? <==> (AllDigits(text) && text != [])
                       || (|text| >= 2 && (text[0] == '-' || text[0] == '+') && AllDigits(text[1..]))
  {
    if text != [] && AllDigits(text) then Ok(DigitsValue(text))
    else if |text| >= 2 && text[0] == '-' && AllDigits(text[1..]) then Ok(-(DigitsValue(text[1..]) as int))
    else if |text| >= 2 && text[0] == '+' && AllDigits(text[1..]) then Ok(DigitsValue(text[1..]))
    else Err(ValueError("invalid literal for int() with base 10"))
  }

  /** Printing an int and parsing it back gives the same int. */
  lemma IntToStringRoundTrip(i: int)
    ensures ParseInt(IntToString(i)) == Ok(i)
  {
    if i < 0 {
      var s := IntToString(i);
      assert s[0] == '-' && s[1..] == NatToString(-i);
      assert !IsDigit(s[0]);
      NatToStringValue(-i);
    } else {
      NatToStringValue(i);
    }
  }

  /** Distinct integers print as distinct strings (so `index.map(str)` keeps an index unique). */
  lemma IntToStringInjective(a: int, b: int)
    requires IntToString(a) == IntToString(b)
    ensures a == b
  {
    IntToStringRoundTrip(a);
    IntToStringRoundTrip(b);
  }

  /** `index.map(str)` on integer ids. */
  function DecimalIds(ids: seq<int>): (s: seq<string>)
    ensures |s| == |ids|
  {
    seq(|ids|, i requires 0 <= i < |ids| => IntToString(ids[i]))
  }

  /** Distinct integer ids stay distinct once written as strings. */
  lemma DecimalIdsDistinct(ids: seq<int>)
    requires Distinct(ids)
    ensures Distinct(DecimalIds(ids))
  {
    forall i, j | 0 <= i < j < |ids|
      ensures DecimalIds(ids)[i] != DecimalIds(ids)[j]
    {
      if IntToString(ids[i]) == IntToString(ids[j]) {
        IntToStringInjective(ids[i], ids[j]);
      }
    }
  }

  // ---------------------------------------------------------------------------
  // pandas Series.unique(): distinct values in order of first appearance
  // ---------------------------------------------------------------------------

  predicate Distinct<T(==)>(s: seq<T>) {
    forall i, j :: 0 <= i < j < |s| ==> s[i] != s[j]
  }

  function Unique<T(==)>(s: seq<T>): seq<T> {
    if s == [] then []
    else
      var u := Unique(s[..|s| - 1]);
      if s[|s| - 1] in u then u else u + [s[|s| - 1]]
  }

  /** `unique()` invents no value and loses none. */
  lemma {:induction false} UniqueMember<T>(s: seq<T>, x: T)
    ensures x in Unique(s) <==> x in s
  {
    if s != [] {
      var init := s[..|s| - 1];
      UniqueMember(init, x);
      assert s == init + [s[|s| - 1]];
    }
  }

  /** `unique()` lists each value once. */
  lemma {:induction false} UniqueDistinct<T>(s: seq<T>)
    ensures Distinct(Unique(s))
  {
    if s != [] {
      UniqueDistinct(s[..|s| - 1]);
    }
  }

  /** The position of the first occurrence of `x`. */
  function FirstIndex<T(==)>(s: seq<T>, x: T): (k: nat)
    requires x in s
    ensures k < |s| && s[k] == x && x !in s[..k]
  {
    if s[0] == x then 0 else 1 + FirstIndex(s[1..], x)
  }

  /** `unique()` lists values in order of first appearance. */
  lemma {:induction false} UniqueOrder<T>(s: seq<T>, i: nat, j: nat)
    requires i < j < |Unique(s)|
    ensures Unique(s)[i] in s && Unique(s)[j] in s
    ensures FirstIndex(s, Unique(s)[i]) < FirstIndex(s, Unique(s)[j])
  {
    var u := Unique(s);
    var init := s[..|s| - 1];
    var last := s[|s| - 1];
    var ui := Unique(init);
    assert u == ui || (u == ui + [last] && last !in ui);
    assert i < |ui| && u[i] == ui[i];
    UniqueMember(init, ui[i]);
    FirstIndexPrefix(s, init, u[i]);
    if j < |ui| {
      UniqueOrder(init, i, j);
      assert u[j] == ui[j];
      UniqueMember(init, ui[j]);
      FirstIndexPrefix(s, init, u[j]);
    } else {
      // u[j] is the last element, added because it never occurred in `init`
      UniqueMember(init, last);
      assert u[j] == last && last !in init;
      assert FirstIndex(s, last) == |s| - 1;
    }
  }

  lemma FirstIndexPrefix<T>(s: seq<T>, init: seq<T>, x: T)
    requires |init| <= |s| && init == s[..|init|] && x in init
    ensures x in s && FirstIndex(s, x) == FirstIndex(init, x)
  {
    var k := FirstIndex(init, x);
    assert s[k] == x;
  }
}
