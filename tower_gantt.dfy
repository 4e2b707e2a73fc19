/** The operational intervals of one instrument in the tower Gantt chart: the instrument's
    column is reduced to a present/missing flag per row, and each run of present rows becomes
    one interval. Intervals are given as row positions; the chart reads the timestamps at
    those positions. */
module TowerGantt {
  import opened Common

  // ---------------------------------------------------------------------------
  // Reference definitions over the first n rows: where runs of present rows start and
  // where they stop
  // ---------------------------------------------------------------------------

  /** Positions `1 <= i < n` where the flag goes from missing to present (`diff() == 1`). */
  function Rises(p: seq<bool>, n: nat): (rs: seq<nat>)
    requires n <= |p|
    ensures forall k :: 0 <= k < |rs| ==> 1 <= rs[k] < n
  {
    if n <= 1 then []
    else Rises(p, n - 1) + (if p[n - 1] && !p[n - 2] then [n - 1] else [])
  }

  /** Positions `1 <= i < n` where the flag goes from present to missing (`diff() == -1`). */
  function Falls(p: seq<bool>, n: nat): (fs: seq<nat>)
    requires n <= |p|
    ensures forall k :: 0 <= k < |fs| ==> 1 <= fs[k] < n
  {
    if n <= 1 then []
    else Falls(p, n - 1) + (if !p[n - 1] && p[n - 2] then [n - 1] else [])
  }

  /** The first position of every run of present rows among the first `n`. */
  function RunStarts(p: seq<bool>, n: nat): (ss: seq<nat>)
    requires n <= |p|
    ensures forall k :: 0 <= k < |ss| ==> ss[k] < n
  {
    if n > 0 && p[0] then [0] + Rises(p, n) else Rises(p, n)
  }

  predicate Ascending(s: seq<nat>) {
    forall k, l :: 0 <= k < l < |s| ==> s[k] < s[l]
  }

  /** Runs and gaps alternate among the first `n` rows: the k-th run covers `[S[k], F[k])`,
      the gap after it `[F[k], S[k + 1])`, a run without a fall reaches row `n - 1`, and no
      row before the first start or after a final fall is present. */
  predicate Alternate(p: seq<bool>, n: nat, S: seq<nat>, F: seq<nat>)
    requires n <= |p|
  {
    && (forall k :: 0 <= k < |S| ==> S[k] < n)
    && (forall k :: 0 <= k < |F| ==> F[k] < n)
    && |S| == |F| + (if n > 0 && p[n - 1] then 1 else 0)
    && (forall k {:trigger F[k]} :: 0 <= k < |F| ==> S[k] < F[k])
    && (forall k {:trigger F[k]} :: 0 <= k < |F| && k + 1 < |S| ==> F[k] < S[k + 1])
    && (forall k, i {:trigger F[k], p[i]} :: 0 <= k < |F| && S[k] <= i < F[k] ==> p[i])
    && (forall k :: 0 <= k < |F| ==> !p[F[k]])
    && (|F| < |S| ==> forall i :: S[|S| - 1] <= i < n ==> p[i])
    && (forall k, i {:trigger F[k], p[i]} :: 0 <= k < |F| && k + 1 < |S| && F[k] <= i < S[k + 1] ==> !p[i])
    && (forall i :: 0 <= i < n && (|S| == 0 || i < S[0]) ==> !p[i])
    && (|F| == |S| && |F| > 0 ==> forall i :: F[|F| - 1] <= i < n ==> !p[i])
  }

  /** The starts and falls of the first `n` rows alternate as runs and gaps. */
  lemma {:induction false} RunsAlternate(p: seq<bool>, n: nat)
    requires n <= |p|
    ensures Alternate(p, n, RunStarts(p, n), Falls(p, n))
  {
    if n > 1 {
      RunsAlternate(p, n - 1);
      RunStartsStep(p, n - 1);
      AlternateStep(p, n - 1, RunStarts(p, n - 1), Falls(p, n - 1));
    } else {
      assert Rises(p, n) == [] && Falls(p, n) == [];
    }
  }

  lemma RunStartsStep(p: seq<bool>, n: nat)
    requires 0 < n < |p|
    ensures RunStarts(p, n + 1) == RunStarts(p, n) + (if p[n] && !p[n - 1] then [n] else [])
  {
  }

  lemma AlternateStep(p: seq<bool>, n: nat, S: seq<nat>, F: seq<nat>)
    requires 0 < n < |p| && Alternate(p, n, S, F)
    ensures Alternate(p, n + 1, S + (if p[n] && !p[n - 1] then [n] else []),
                      F + (if !p[n] && p[n - 1] then [n] else []))
  {
    if p[n] && !p[n - 1] {
      AlternateRise(p, n, S, F);
      assert F + [] == F;
    } else if !p[n] && p[n - 1] {
      AlternateFall(p, n, S, F);
      assert S + [] == S;
    } else {
      AlternateSame(p, n, S, F);
      assert S + [] == S && F + [] == F;
    }
  }

  /** A run opens at row `n`. */
  lemma AlternateRise(p: seq<bool>, n: nat, S: seq<nat>, F: seq<nat>)
    requires 0 < n < |p| && Alternate(p, n, S, F) && p[n] && !p[n - 1]
    ensures var S', n' := S + [n], n + 1; (forall k :: 0 <= k < |S'| ==> S'[k] < n')
    ensures var S', n' := S + [n], n + 1; (forall k :: 0 <= k < |F| ==> F[k] < n')
    ensures var S', n' := S + [n], n + 1; |S'| == |F| + (if n' > 0 && p[n' - 1] then 1 else 0)
    ensures var S', n' := S + [n], n + 1; (forall k {:trigger F[k]} :: 0 <= k < |F| ==> S'[k] < F[k])
    ensures var S', n' := S + [n], n + 1; (forall k {:trigger F[k]} :: 0 <= k < |F| && k + 1 < |S'| ==> F[k] < S'[k + 1])
    ensures var S', n' := S + [n], n + 1; (forall k, i {:trigger F[k], p[i]} :: 0 <= k < |F| && S'[k] <= i < F[k] ==> p[i])
    ensures var S', n' := S + [n], n + 1; (forall k :: 0 <= k < |F| ==> !p[F[k]])
    ensures var S', n' := S + [n], n + 1; (|F| < |S'| ==> forall i :: S'[|S'| - 1] <= i < n' ==> p[i])
    ensures var S', n' := S + [n], n + 1; (forall k, i {:trigger F[k], p[i]} :: 0 <= k < |F| && k + 1 < |S'| && F[k] <= i < S'[k + 1] ==> !p[i])
    ensures var S', n' := S + [n], n + 1; (forall i :: 0 <= i < n' && (|S'| == 0 || i < S'[0]) ==> !p[i])
  {
    assert |S| == |F|;
  }

  /** The run open at row `n - 1` closes at row `n`. */
  lemma AlternateFall(p: seq<bool>, n: nat, S: seq<nat>, F: seq<nat>)
    requires 0 < n < |p| && Alternate(p, n, S, F) && !p[n] && p[n - 1]
    ensures Alternate(p, n + 1, S, F + [n])
  {
    var F' := F + [n];
    assert |S| == |F| + 1;
    assert forall k :: 0 <= k < |F| ==> F'[k] == F[k];
    assert S[|S| - 1] < n;
    assert forall k :: 0 <= k < |F'| ==> S[k] < F'[k];
    assert forall k, i :: 0 <= k < |F'| && S[k] <= i < F'[k] ==> p[i];
    assert forall k :: 0 <= k < |F'| ==> !p[F'[k]];
  }

  /** Row `n` continues the run or the gap of row `n - 1`. */
  lemma AlternateSame(p: seq<bool>, n: nat, S: seq<nat>, F: seq<nat>)
    requires 0 < n < |p| && Alternate(p, n, S, F) && p[n] == p[n - 1]
    ensures Alternate(p, n + 1, S, F)
  {
    if p[n] {
      assert |F| < |S|;
      assert forall i :: S[|S| - 1] <= i < n + 1 ==> p[i];
    } else {
      assert |F| == |S|;
      if |F| > 0 {
        assert F[|F| - 1] < n;
        assert forall i :: F[|F| - 1] <= i < n + 1 ==> !p[i];
      } else {
        assert forall i :: 0 <= i < n + 1 ==> !p[i];
      }
    }
  }

  /** The starts are ascending and are exactly the present rows that follow a missing row
      or open the series. */
  lemma {:induction false} RunStartsMembers(p: seq<bool>, n: nat, x: nat)
    requires n <= |p|
    ensures Ascending(RunStarts(p, n))
    ensures x in RunStarts(p, n) <==> x < n && p[x] && (x == 0 || !p[x - 1])
  {
    RisesMembers(p, n, x);
  }

  lemma {:induction false} RisesMembers(p: seq<bool>, n: nat, x: nat)
    requires n <= |p|
    ensures Ascending(Rises(p, n))
    ensures x in Rises(p, n) <==> 1 <= x < n && p[x] && !p[x - 1]
  {
    if n > 1 {
      RisesMembers(p, n - 1, x);
    }
  }

  // ---------------------------------------------------------------------------
  // np.sort(list(set(xs)))
  // ---------------------------------------------------------------------------

  function InsertSorted(x: nat, s: seq<nat>): (r: seq<nat>)
    requires Ascending(s)
    ensures Ascending(r)
    ensures forall v :: v in r <==> v == x || v in s
  {
    if s == [] then [x]
    else if x == s[0] then s
    else if x < s[0] then [x] + s
    else
      var t := InsertSorted(x, s[1..]);
      assert forall v :: v in t ==> s[0] < v by {
        assert forall k :: 1 <= k < |s| ==> s[0] < s[k];
      }
      assert forall l :: 0 <= l < |t| ==> s[0] < t[l] by {
        forall l | 0 <= l < |t| ensures s[0] < t[l] {
          assert t[l] in t;
        }
      }
      var r := [s[0]] + t;
      assert r[0] == s[0] && forall k :: 1 <= k < |r| ==> r[k] == t[k - 1];
      assert s == [s[0]] + s[1..];
      assert forall v :: v in r <==> v == s[0] || v in t;
      r
  }

  /** The distinct values of `xs`, ascending. */
  function SortUnique(xs: seq<nat>): (r: seq<nat>)
    ensures Ascending(r)
    ensures forall v :: v in r <==> v in xs
  {
    if xs == [] then [] else InsertSorted(xs[0], SortUnique(xs[1..]))
  }

  /** Two ascending lists with the same elements are equal. */
  lemma {:induction false} AscendingUnique(a: seq<nat>, b: seq<nat>)
    requires Ascending(a) && Ascending(b)
    requires forall v :: v in a <==> v in b
    ensures a == b
  {
    if a != [] {
      assert a[0] in a;
    }
    if b != [] {
      assert b[0] in b;
    }
    if a != [] && b != [] {
      assert a[0] == b[0] by {
        assert a[0] in b && b[0] in a;
      }
      forall v ensures v in a[1..] <==> v in b[1..] {
        if v in a[1..] {
          assert v in b && v != b[0];
        }
        if v in b[1..] {
          assert v in a && v != a[0];
        }
      }
      AscendingUnique(a[1..], b[1..]);
      assert a == [a[0]] + a[1..] && b == [b[0]] + b[1..];
    }
  }

  // ---------------------------------------------------------------------------
  // gantt_chart: one instrument
  // ---------------------------------------------------------------------------

  datatype Interval = Interval(start: nat, end: nat)

  /** `operational_periods.idxmax()`: the first present row, or row 0 when none is present
      (pandas raises on an empty series). */
  function IdxMax(p: seq<bool>): (first: nat)
    requires p != []
    ensures first < |p|
    ensures forall i :: 0 <= i < first ==> !p[i]
    ensures p[first] || (first == 0 && forall i :: 0 <= i < |p| ==> !p[i])
  {
    if p[0] || |p| == 1 then 0
    else if exists i :: 1 <= i < |p| && p[i] then 1 + IdxMax(p[1..])
    else 0
  }

  /** The intervals are the maximal runs of present rows, in order: each starts on a present
      row that opens a run, covers only present rows up to its end, and ends on the first
      missing row after the run, except a last run that reaches the final row, which ends
      there. Consecutive intervals do not overlap, and every present row lies in one. */
  predicate Runs(p: seq<bool>, iv: seq<Interval>) {
    && RunsInside(p, iv)
    && (forall k :: 0 <= k < |iv| ==> p[iv[k].start] && (iv[k].start == 0 || !p[iv[k].start - 1]))
    && (forall k, i :: 0 <= k < |iv| && iv[k].start <= i < iv[k].end ==> p[i])
    && (forall k :: 0 <= k < |iv| ==> !p[iv[k].end] || (k == |iv| - 1 && iv[k].end == |p| - 1))
    && (forall k :: 0 <= k < |iv| - 1 ==> iv[k].end < iv[k + 1].start)
    && (forall i :: 0 <= i < |p| && p[i] ==> exists k :: 0 <= k < |iv| && iv[k].start <= i <= iv[k].end)
  }

  /** The intervals of a series with no present row are the single interval from the first
      row to the last; otherwise they are its runs. */
  predicate GanttMeaning(p: seq<bool>, iv: seq<Interval>) {
    && (p != [] && (forall i :: 0 <= i < |p| ==> !p[i]) ==> iv == [Interval(0, |p| - 1)])
    && ((exists i :: 0 <= i < |p| && p[i]) ==> Runs(p, iv))
  }

  predicate RunsInside(p: seq<bool>, iv: seq<Interval>) {
    forall k :: 0 <= k < |iv| ==> iv[k].start <= iv[k].end < |p|
  }

  /** The Gantt intervals of one instrument's present/missing flags. Starts are the first
      present row together with every missing-to-present change, de-duplicated and sorted;
      ends are the present-to-missing changes, plus the last row when the final run
      reaches it; the two lists are paired in order. A series with no present row still
      yields one interval, from the first row to the last. */
  method GanttIntervals(present: seq<bool>) returns (r: Result<seq<Interval>>)
    ensures r.Err? <==> present == []
    ensures r.Ok? ==> GanttMeaning(present, r.value)
  {
    if present == [] {
      return Err(ValueError("attempt to get argmax of an empty sequence"));
    }
    var n := |present|;
    var startDates := SortUnique([IdxMax(present)] + Rises(present, n));
    var endDates := Falls(present, n);
    if |endDates| < |startDates| {
      endDates := endDates + [n - 1];
    }
    StartsAndEnds(present, startDates, endDates);
    var gantt := PairUp(startDates, endDates);
    r := Ok(gantt);
    GanttOutcome(present, startDates, endDates, gantt);
  }

  /** `for start in range(len(start_dates)): gantt_data.append(...)`: the k-th start with
      the k-th end. */
  method PairUp(startDates: seq<nat>, endDates: seq<nat>) returns (gantt: seq<Interval>)
    requires |endDates| >= |startDates|
    ensures |gantt| == |startDates|
    ensures forall k :: 0 <= k < |gantt| ==> gantt[k] == Interval(startDates[k], endDates[k])
  {
    gantt := [];
    for k := 0 to |startDates|
      invariant |gantt| == k
      invariant forall j :: 0 <= j < k ==> gantt[j] == Interval(startDates[j], endDates[j])
    {
      gantt := gantt + [Interval(startDates[k], endDates[k])];
    }
  }

  lemma GanttOutcome(p: seq<bool>, S: seq<nat>, E: seq<nat>, iv: seq<Interval>)
    requires p != []
    requires S == SortUnique([IdxMax(p)] + Rises(p, |p|))
    requires var F := Falls(p, |p|);
             E == if |F| < |S| then F + [|p| - 1] else F
    requires |iv| == |S| == |E| && forall k :: 0 <= k < |iv| ==> iv[k] == Interval(S[k], E[k])
    ensures GanttMeaning(p, iv)
  {
    StartsAndEnds(p, S, E);
    if exists i :: 0 <= i < |p| && p[i] {
      GanttRuns(p, S, E, iv);
    }
  }

  /** What the start and end lists are, in terms of the reference definitions. */
  lemma StartsAndEnds(p: seq<bool>, startDates: seq<nat>, endDates: seq<nat>)
    requires p != []
    requires startDates == SortUnique([IdxMax(p)] + Rises(p, |p|))
    requires var F := Falls(p, |p|);
             endDates == if |F| < |startDates| then F + [|p| - 1] else F
    ensures |endDates| == |startDates|
    ensures (forall i :: 0 <= i < |p| ==> !p[i]) ==> startDates == [0] && endDates == [|p| - 1]
    ensures (exists i :: 0 <= i < |p| && p[i]) ==> startDates == RunStarts(p, |p|)
  {
    var n := |p|;
    if exists i :: 0 <= i < n && p[i] {
      StartsWhenPresent(p);
      RunsAlternate(p, n);
    } else {
      NothingWhenMissing(p, n);
      assert [IdxMax(p)] + Rises(p, n) == [0];
    }
  }

  /** With no present row there is neither a rise nor a fall. */
  lemma {:induction false} NothingWhenMissing(p: seq<bool>, n: nat)
    requires n <= |p| && forall i :: 0 <= i < |p| ==> !p[i]
    ensures Rises(p, n) == [] && Falls(p, n) == []
  {
    if n > 1 {
      NothingWhenMissing(p, n - 1);
    }
  }

  /** With a present row, the sorted distinct starts are the run starts. */
  lemma StartsWhenPresent(p: seq<bool>)
    requires exists i :: 0 <= i < |p| && p[i]
    ensures SortUnique([IdxMax(p)] + Rises(p, |p|)) == RunStarts(p, |p|)
  {
    var n := |p|;
    var first := IdxMax(p);
    var xs := [first] + Rises(p, n);
    var u := SortUnique(xs);
    forall x: nat ensures x in u <==> x in RunStarts(p, n) {
      RunStartsMembers(p, n, x);
      RisesMembers(p, n, x);
      assert x in xs <==> x == first || x in Rises(p, n);
    }
    RunStartsMembers(p, n, 0);
    AscendingUnique(u, RunStarts(p, n));
  }

  lemma GanttRuns(p: seq<bool>, S: seq<nat>, E: seq<nat>, iv: seq<Interval>)
    requires exists i :: 0 <= i < |p| && p[i]
    requires S == RunStarts(p, |p|)
    requires var F := Falls(p, |p|);
             E == if |F| < |S| then F + [|p| - 1] else F
    requires |iv| == |S| == |E| && forall k :: 0 <= k < |iv| ==> iv[k] == Interval(S[k], E[k])
    ensures Runs(p, iv)
  {
    RunsOpen(p, S, iv);
    RunsAlternate(p, |p|);
    RunsShape(p, S, Falls(p, |p|), E, iv);
    RunsCover(p, S, Falls(p, |p|), E, iv);
  }

  lemma RunsOpen(p: seq<bool>, S: seq<nat>, iv: seq<Interval>)
    requires S == RunStarts(p, |p|)
    requires |iv| == |S| && forall k :: 0 <= k < |iv| ==> iv[k].start == S[k]
    ensures forall k :: 0 <= k < |iv| ==> p[iv[k].start] && (iv[k].start == 0 || !p[iv[k].start - 1])
  {
    forall k | 0 <= k < |iv|
      ensures p[iv[k].start] && (iv[k].start == 0 || !p[iv[k].start - 1])
    {
      RunStartsMembers(p, |p|, S[k]);
    }
  }

  lemma RunsCover(p: seq<bool>, S: seq<nat>, F: seq<nat>, E: seq<nat>, iv: seq<Interval>)
    requires Alternate(p, |p|, S, F) && p != []
    requires E == if |F| < |S| then F + [|p| - 1] else F
    requires |iv| == |S| == |E| && forall k :: 0 <= k < |iv| ==> iv[k] == Interval(S[k], E[k])
    ensures forall i :: 0 <= i < |p| && p[i] ==> exists k :: 0 <= k < |iv| && iv[k].start <= i <= iv[k].end
  {
    forall i | 0 <= i < |p| && p[i]
      ensures exists k :: 0 <= k < |iv| && iv[k].start <= i <= iv[k].end
    {
      var k := Covering(p, S, F, i);
      if k < |F| {
        assert E[k] == F[k];
      } else {
        assert E[k] == |p| - 1;
      }
      assert iv[k].start <= i <= iv[k].end;
    }
  }

  lemma RunsShape(p: seq<bool>, S: seq<nat>, F: seq<nat>, E: seq<nat>, iv: seq<Interval>)
    requires Alternate(p, |p|, S, F) && p != []
    requires E == if |F| < |S| then F + [|p| - 1] else F
    requires |iv| == |S| == |E| && forall k :: 0 <= k < |iv| ==> iv[k] == Interval(S[k], E[k])
    ensures RunsInside(p, iv)
    ensures forall k, i :: 0 <= k < |iv| && iv[k].start <= i < iv[k].end ==> p[i]
    ensures forall k :: 0 <= k < |iv| ==> !p[iv[k].end] || (k == |iv| - 1 && iv[k].end == |p| - 1)
    ensures forall k :: 0 <= k < |iv| - 1 ==> iv[k].end < iv[k + 1].start
  {
    forall k | 0 <= k < |iv|
      ensures iv[k].start <= iv[k].end < |p|
      ensures forall i :: iv[k].start <= i < iv[k].end ==> p[i]
      ensures !p[iv[k].end] || (k == |iv| - 1 && iv[k].end == |p| - 1)
      ensures k < |iv| - 1 ==> iv[k].end < iv[k + 1].start
    {
      RunShapeAt(p, S, F, E, k);
    }
  }

  lemma RunShapeAt(p: seq<bool>, S: seq<nat>, F: seq<nat>, E: seq<nat>, k: nat)
    requires Alternate(p, |p|, S, F) && p != []
    requires E == if |F| < |S| then F + [|p| - 1] else F
    requires |S| == |E| && k < |S|
    ensures S[k] <= E[k] < |p|
    ensures forall i :: S[k] <= i < E[k] ==> p[i]
    ensures !p[E[k]] || (k == |S| - 1 && E[k] == |p| - 1)
    ensures k < |S| - 1 ==> E[k] < S[k + 1]
  {
    if k < |F| {
      assert E[k] == F[k];
    } else {
      assert E[k] == |p| - 1 && k == |S| - 1;
    }
  }

  /** The run holding a present row. */
  lemma Covering(p: seq<bool>, S: seq<nat>, F: seq<nat>, i: nat) returns (k: nat)
    requires i < |p| && p[i] && Alternate(p, |p|, S, F)
    ensures k < |S| && S[k] <= i && (k < |F| ==> i < F[k])
  {
    k := 0;
    while k + 1 < |S| && S[k + 1] <= i
      invariant k < |S| && S[k] <= i
    {
      k := k + 1;
    }
  }
}
