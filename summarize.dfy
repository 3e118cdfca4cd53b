/**
 * SummarizeCSV (trunk/.../util/SummarizeCSV.java): reads the result file of repeated runs
 * line by line, in blocks of 100 data rows separated by one blank line, and summarises each
 * complete block by the mean and the 10% trimmed mean of its generation counts and elapsed
 * times, together with the settings columns of the block's second row.
 *
 * The file is a sequence of lines and Double.parseDouble is a parameter; the result file that
 * is written becomes the sequence of summaries.
 */
module Summaries {
  import opened Wrappers
  import opened Strings

  const BlockSize: nat := 100
  const TrimPercent: real := 0.10
  /** The label written in front of every summary ("" + rows.size()). */
  const BlockLabel := "100"
  /** writeCsvSummary copies columns 3 to 15 of the second row of the block. */
  const SettingsFrom: nat := 3
  const SettingsTo: nat := 16

  // ---------------------------------------------------------------- sums and means

  function Sum(s: seq<real>): real
  {
    if |s| == 0 then 0.0 else Sum(s[..|s| - 1]) + s[|s| - 1]
  }

  /** Sum / size in double arithmetic; an empty list gives 0.0 / 0 = NaN, here None. */
  function Average(s: seq<real>): (r: Option<real>)
    ensures r.None? <==> |s| == 0
  {
    if |s| == 0 then None else Some(Sum(s) / |s| as real)
  }

  /** Every value lies in [lo, hi]. */
  ghost predicate Within(s: seq<real>, lo: real, hi: real)
  {
    forall i :: 0 <= i < |s| ==> lo <= s[i] <= hi
  }

  lemma {:induction false} SumWithin(s: seq<real>, lo: real, hi: real)
    requires Within(s, lo, hi)
    ensures lo * |s| as real <= Sum(s) <= hi * |s| as real
  {
    if |s| > 0 {
      var init := s[..|s| - 1];
      assert Within(init, lo, hi) by {
        forall i | 0 <= i < |init| ensures lo <= init[i] <= hi {
          assert init[i] == s[i];
        }
      }
      SumWithin(init, lo, hi);
      assert lo <= s[|s| - 1] <= hi;
    }
  }

  /** The mean of a non-empty list lies between its least and its greatest value. */
  lemma AverageWithin(s: seq<real>, lo: real, hi: real)
    requires |s| > 0 && Within(s, lo, hi)
    ensures lo <= Average(s).value <= hi
  {
    SumWithin(s, lo, hi);
    var n := |s| as real;
    assert Average(s).value * n == Sum(s);
  }

  lemma {:induction false} SumConstant(s: seq<real>, c: real)
    requires forall i :: 0 <= i < |s| ==> s[i] == c
    ensures Sum(s) == c * |s| as real
  {
    if |s| > 0 {
      var init := s[..|s| - 1];
      assert forall i :: 0 <= i < |init| ==> init[i] == s[i];
      SumConstant(init, c);
    }
  }

  lemma {:induction false} SumSnoc(s: seq<real>, i: nat, j: nat)
    requires i <= j < |s|
    ensures Sum(s[i..j + 1]) == Sum(s[i..j]) + s[j]
  {
    assert s[i..j + 1][..j - i] == s[i..j];
  }

  /** calculateAvg: the values are summed one by one and the sum divided by their number. */
  method CalculateAvg(values: seq<real>) returns (r: Option<real>)
    ensures r == Average(values)
  {
    var sum := SumRange(values, 0, |values|);
    assert values[0..|values|] == values;
    if |values| == 0 {
      return None;
    }
    r := Some(sum / |values| as real);
  }

  // ---------------------------------------------------------------- sorting

  ghost predicate Sorted(s: seq<real>)
  {
    forall i, j :: 0 <= i < j < |s| ==> s[i] <= s[j]
  }

  function Insert(x: real, s: seq<real>): (r: seq<real>)
    ensures |r| == |s| + 1
  {
    if |s| == 0 then [x] else if x <= s[0] then [x] + s else [s[0]] + Insert(x, s[1..])
  }

  /** Collections.sort: the values in ascending order (SortFacts), as many as there were. */
  function Sort(s: seq<real>): (r: seq<real>)
    ensures |r| == |s|
  {
    if |s| == 0 then [] else Insert(s[0], Sort(s[1..]))
  }

  lemma SortedTail(s: seq<real>)
    requires Sorted(s) && |s| > 0
    ensures Sorted(s[1..])
  {
    forall i, j | 0 <= i < j < |s| - 1 ensures s[1..][i] <= s[1..][j] {
      assert s[1..][i] == s[i + 1] && s[1..][j] == s[j + 1];
    }
  }

  /** The head of a sorted list is at most every value in it. */
  lemma SortedHeadLeast(s: seq<real>, x: real)
    requires Sorted(s) && x in multiset(s)
    ensures s[0] <= x
  {
    var i :| 0 <= i < |s| && s[i] == x;
    if i > 0 {
      assert s[0] <= s[i];
    }
  }

  /** A value no greater than every value of a sorted list can go in front of it. */
  lemma SortedCons(x: real, s: seq<real>)
    requires Sorted(s) && forall k :: 0 <= k < |s| ==> x <= s[k]
    ensures Sorted([x] + s)
  {
    var r := [x] + s;
    forall i, j | 0 <= i < j < |r| ensures r[i] <= r[j] {
      assert r[j] == s[j - 1];
      if i > 0 {
        assert r[i] == s[i - 1];
      }
    }
  }

  lemma {:induction false} InsertFacts(x: real, s: seq<real>)
    requires Sorted(s)
    ensures Sorted(Insert(x, s))
    ensures multiset(Insert(x, s)) == multiset(s) + multiset{x}
  {
    if |s| == 0 {
    } else if x <= s[0] {
      forall k | 0 <= k < |s| ensures x <= s[k] {
        SortedHeadLeast(s, s[k]);
      }
      SortedCons(x, s);
    } else {
      SortedTail(s);
      InsertFacts(x, s[1..]);
      assert s == [s[0]] + s[1..];
      var r := Insert(x, s[1..]);
      forall k | 0 <= k < |r| ensures s[0] <= r[k] {
        assert r[k] in multiset(r);
        if r[k] != x {
          assert r[k] in multiset(s[1..]);
          assert r[k] in multiset(s);
          SortedHeadLeast(s, r[k]);
        }
      }
      SortedCons(s[0], r);
    }
  }

  lemma {:induction false} SortFacts(s: seq<real>)
    ensures Sorted(Sort(s))
    ensures multiset(Sort(s)) == multiset(s)
  {
    if |s| > 0 {
      SortFacts(s[1..]);
      InsertFacts(s[0], Sort(s[1..]));
      assert s == [s[0]] + s[1..];
      assert multiset(s) == multiset(s[1..]) + multiset{s[0]};
    }
  }

  /** A sorted arrangement of a multiset is unique. */
  lemma {:induction false} SortedUnique(a: seq<real>, b: seq<real>)
    requires Sorted(a) && Sorted(b) && multiset(a) == multiset(b)
    ensures a == b
  {
    assert |a| == |multiset(a)| == |b|;
    if |a| > 0 {
      assert a[0] in multiset(a) && b[0] in multiset(b);
      SortedHeadLeast(b, a[0]);
      SortedHeadLeast(a, b[0]);
      assert a[0] == b[0];
      assert a == [a[0]] + a[1..] && b == [b[0]] + b[1..];
      assert multiset(a[1..]) == multiset(a) - multiset{a[0]};
      assert multiset(b[1..]) == multiset(b) - multiset{b[0]};
      SortedTail(a);
      SortedTail(b);
      SortedUnique(a[1..], b[1..]);
    }
  }

  /** Sorting depends only on the values, not on their order. */
  lemma SortPermutation(s: seq<real>, u: seq<real>)
    requires multiset(s) == multiset(u)
    ensures Sort(s) == Sort(u)
  {
    SortFacts(s);
    SortFacts(u);
    SortedUnique(Sort(s), Sort(u));
  }

  /** Every value of a slice of the sorted list is a value of the list. */
  lemma SortedSliceWithin(s: seq<real>, a: nat, b: nat, lo: real, hi: real)
    requires a <= b <= |s| && Within(s, lo, hi)
    ensures |Sort(s)| == |s|
    ensures Within(Sort(s)[a..b], lo, hi)
  {
    SortFacts(s);
    assert |Sort(s)| == |multiset(Sort(s))| == |s|;
    var slice := Sort(s)[a..b];
    forall k | 0 <= k < |slice| ensures lo <= slice[k] <= hi {
      assert slice[k] == Sort(s)[a + k];
      assert slice[k] in multiset(s);
    }
  }

  /** Sorting the array in place (Collections.sort on the list it is given). */
  method SortInPlace(a: array<real>)
    modifies a
    ensures a[..] == Sort(old(a[..]))
  {
    var sorted := Sort(a[..]);
    SortFacts(a[..]);
    assert |sorted| == |multiset(sorted)| == a.Length;
    for i := 0 to a.Length
      invariant forall k :: 0 <= k < i ==> a[k] == sorted[k]
    {
      a[i] := sorted[i];
    }
  }

  // ---------------------------------------------------------------- trimmed means

  /** (int) Math.floor(p * n): the cast saturates at the int range. */
  function TrimCount(p: real, n: nat): (t: int)
    ensures IntMin <= t <= IntMax
  {
    var f := (p * n as real).Floor;
    if f < IntMin then IntMin else if f > IntMax then IntMax else f
  }

  /** Within the int range the cast is exact: the trim count is the floor of p * n. */
  lemma TrimCountFloor(p: real, n: nat)
    ensures IntMin <= (p * n as real).Floor <= IntMax ==> TrimCount(p, n) == (p * n as real).Floor
  {
  }

  /** A double quotient; a zero divisor gives an infinite or NaN value, here None. */
  function Quotient(sum: real, d: int): Option<real>
  {
    if d == 0 then None else Some(sum / d as real)
  }

  /**
   * calculateTrimmedAvg as written: the sum over subList(t, n - t + 1) of the sorted values
   * divided by n - 2t. ArrayList.subList checks from < 0 and to > size (IndexOutOfBounds)
   * before from > to (IllegalArgument).
   */
  function TrimmedAvgAsWritten(s: seq<real>, p: real): (r: Result<Option<real>>)
    ensures r.Err? <==> TrimCount(p, |s|) < 1 || 2 * TrimCount(p, |s|) > |s| + 1
    ensures r.Err? ==> r.fault == (if TrimCount(p, |s|) < 1 then IndexOutOfBounds else IllegalArgument)
  {
    var n := |s|;
    var t := TrimCount(p, n);
    if t < 0 || n - t + 1 > n then Err(IndexOutOfBounds)
    else if t > n - t + 1 then Err(IllegalArgument)
    else
      SortFacts(s);
      assert |Sort(s)| == |multiset(s)|;
      Ok(Quotient(Sum(Sort(s)[t..n - t + 1]), n - 2 * t))
  }

  /**
   * As written the quotient is NaN (here None) exactly when the list is twice the trim count,
   * which subList allows only for a trim count of at least 1.
   */
  lemma TrimmedAvgAsWrittenNaN(s: seq<real>, p: real)
    ensures TrimmedAvgAsWritten(s, p) == Ok(None) <==> 1 <= TrimCount(p, |s|) && 2 * TrimCount(p, |s|) == |s|
  {
  }

  /**
   * The trimmed mean the method is evidently meant to compute: the t smallest and the t
   * largest values are dropped and the remaining n - 2t values averaged.
   */
  function TrimmedAverage(s: seq<real>, p: real): (r: Result<Option<real>>)
    ensures r.Err? <==> TrimCount(p, |s|) < 0 || 2 * TrimCount(p, |s|) > |s|
    ensures r.Err? ==> r.fault == (if TrimCount(p, |s|) < 0 then IndexOutOfBounds else IllegalArgument)
    ensures r == Ok(None) <==> 2 * TrimCount(p, |s|) == |s|
  {
    var n := |s|;
    var t := TrimCount(p, n);
    if t < 0 then Err(IndexOutOfBounds)
    else if t > n - t then Err(IllegalArgument)
    else
      SortFacts(s);
      assert |Sort(s)| == |multiset(s)|;
      Ok(Average(Sort(s)[t..n - t]))
  }

  /** The trimmed mean lies between the least and the greatest value. */
  lemma TrimmedAverageWithin(s: seq<real>, p: real, lo: real, hi: real)
    requires Within(s, lo, hi)
    requires TrimmedAverage(s, p).Ok? && TrimmedAverage(s, p).value.Some?
    ensures lo <= TrimmedAverage(s, p).value.value <= hi
  {
    var t := TrimCount(p, |s|);
    SortedSliceWithin(s, t, |s| - t, lo, hi);
    AverageWithin(Sort(s)[t..|s| - t], lo, hi);
  }

  /** The trimmed mean of a constant list is that constant. */
  lemma TrimmedAverageConstant(s: seq<real>, p: real, c: real)
    requires forall i :: 0 <= i < |s| ==> s[i] == c
    requires 0 <= 2 * TrimCount(p, |s|) < |s|
    ensures TrimmedAverage(s, p) == Ok(Some(c))
  {
    TrimmedAverageWithin(s, p, c, c);
  }

  /** The trimmed mean does not depend on the order of the values. */
  lemma TrimmedAveragePermutation(s: seq<real>, u: seq<real>, p: real)
    requires multiset(s) == multiset(u)
    ensures TrimmedAverage(s, p) == TrimmedAverage(u, p)
  {
    assert |s| == |multiset(s)| == |u|;
    SortPermutation(s, u);
  }

  /**
   * As written, a block of 100 values sums its sorted values 10 to 90, 81 of them, and
   * divides by 80; the trimmed mean averages the 80 values 10 to 89.
   */
  lemma BlockTrim(s: seq<real>)
    requires |s| == BlockSize
    ensures TrimCount(TrimPercent, |s|) == 10
    ensures |Sort(s)| == BlockSize
    ensures TrimmedAvgAsWritten(s, TrimPercent) == Ok(Some(Sum(Sort(s)[10..91]) / 80.0))
    ensures TrimmedAverage(s, TrimPercent) == Ok(Average(Sort(s)[10..90]))
    ensures TrimmedAverage(s, TrimPercent).value.Some?
  {
    assert TrimPercent * BlockSize as real == 10.0;
  }

  lemma DivSum(a: real, b: real, d: real)
    requires d != 0.0
    ensures (a + b) / d == a / d + b / d
  {
  }

  /**
   * Whenever the code as written does not throw and something is left after trimming, it
   * answers the trimmed mean plus the (n-t)-th smallest value divided by n - 2t: the one
   * value past the trimmed range that its sublist takes in.
   */
  lemma TrimmedAvgExcess(s: seq<real>, p: real)
    requires 1 <= TrimCount(p, |s|) && 2 * TrimCount(p, |s|) < |s|
    ensures var t, x := TrimCount(p, |s|), Sort(s);
      |x| == |s| && TrimmedAverage(s, p).Ok? && TrimmedAverage(s, p).value.Some? &&
      TrimmedAvgAsWritten(s, p) == Ok(Some(TrimmedAverage(s, p).value.value + x[|s| - t] / (|s| - 2 * t) as real))
  {
    var n, t := |s|, TrimCount(p, |s|);
    SortFacts(s);
    assert |Sort(s)| == |multiset(s)|;
    var x := Sort(s);
    SumSnoc(x, t, n - t);
    var d := (n - 2 * t) as real;
    var inner, excess := Sum(x[t..n - t]), x[n - t];
    assert TrimmedAvgAsWritten(s, p) == Ok(Some((inner + excess) / d));
    assert TrimmedAverage(s, p) == Ok(Some(inner / d));
    DivSum(inner, excess, d);
    assert (inner + excess) / d == TrimmedAverage(s, p).value.value + excess / d;
  }

  /** A list of equal values is already sorted. */
  lemma SortConstant(s: seq<real>, c: real)
    requires forall i :: 0 <= i < |s| ==> s[i] == c
    ensures Sort(s) == s
  {
    SortFacts(s);
    SortedUnique(Sort(s), s);
  }

  /**
   * The sublist taken as written runs one past the trimmed range, so ten values of 1.0
   * average 9/8 where the trimmed mean is 1.
   */
  lemma TrimmedAvgOnePast()
    ensures TrimmedAvgAsWritten(seq(10, _ => 1.0), 0.1) == Ok(Some(9.0 / 8.0))
    ensures TrimmedAverage(seq(10, _ => 1.0), 0.1) == Ok(Some(1.0))
  {
    var ones := seq(10, _ => 1.0);
    assert TrimCount(0.1, 10) == 1 by {
      assert 0.1 * 10 as real == 1.0;
    }
    SortConstant(ones, 1.0);
    SumConstant(ones[1..10], 1.0);
    TrimmedAverageConstant(ones, 0.1, 1.0);
  }

  /**
   * When no value is trimmed (fewer than ten values and 10%), the sublist ends past the
   * list and subList throws, where the trimmed mean is the plain mean.
   */
  lemma TrimmedAvgPastEnd(s: seq<real>)
    requires 0 < |s| < 10
    ensures TrimmedAvgAsWritten(s, 0.1) == Err(IndexOutOfBounds)
    ensures TrimmedAverage(s, 0.1) == Ok(Average(Sort(s))) && Average(Sort(s)).Some?
  {
    assert 0.0 <= 0.1 * |s| as real < 1.0;
    assert TrimCount(0.1, |s|) == 0;
    SortFacts(s);
    assert |Sort(s)| == |multiset(s)|;
    assert Sort(s)[0..|s|] == Sort(s);
  }

  /**
   * calculateTrimmedAvg as written: the caller's list is sorted in place, then the values
   * t to n - t, one past the trimmed range, are summed and the sum divided by n - 2t.
   * subList throws when t is 0 (its end is past the list) or more than half the list.
   */
  method CalculateTrimmedAvg(a: array<real>, p: real) returns (r: Result<Option<real>>)
    modifies a
    ensures a[..] == Sort(old(a[..]))
    ensures r == TrimmedAvgAsWritten(old(a[..]), p)
  {
    var n := a.Length;
    var t := TrimCount(p, n);
    SortInPlace(a);
    if t < 0 || n - t + 1 > n {
      return Err(IndexOutOfBounds);
    }
    if t > n - t + 1 {
      return Err(IllegalArgument);
    }
    var sum := SumRange(a[..], t, n - t + 1);
    if n - 2 * t == 0 {
      return Ok(None);
    }
    r := Ok(Some(sum / (n - 2 * t) as real));
  }

  /** The for-each loop over a sublist: the values from position lo up to hi are summed. */
  method SumRange(values: seq<real>, lo: nat, hi: nat) returns (sum: real)
    requires lo <= hi <= |values|
    ensures sum == Sum(values[lo..hi])
  {
    sum := 0.0;
    var i := lo;
    while i < hi
      invariant lo <= i <= hi
      invariant sum == Sum(values[lo..i])
    {
      SumSnoc(values, lo, i);
      sum := sum + values[i];
      i := i + 1;
    }
  }

  // ---------------------------------------------------------------- rows and blocks

  datatype Row = Row(fields: seq<string>, genCnt: real, elapsedTime: real)

  /** The summary line writeCsvSummary appends for one block. */
  datatype Summary = Summary(caption: string, avgGenCnt: Option<real>, trimmedGenCnt: Result<Option<real>>,
                             avgElapsedTime: Option<real>, trimmedElapsedTime: Result<Option<real>>,
                             settings: seq<string>)

  /** The summaries written and how main ended (an uncaught exception ends it early). */
  datatype Report = Report(summaries: seq<Summary>, outcome: Outcome)

  /**
   * One data row: split on commas, then columns 0 and 1 parsed as doubles, in that order.
   * A missing column is an array index out of bounds.
   */
  function ParseRow(line: string, parseDouble: string -> Option<real>): (r: Result<Row>)
    ensures r.Ok? <==> var f := Split(line, ','); |f| >= 2 && parseDouble(f[0]).Some? && parseDouble(f[1]).Some?
    ensures r.Ok? ==> r.value.fields == Split(line, ',')
    ensures r.Ok? ==> Some(r.value.genCnt) == parseDouble(r.value.fields[0])
    ensures r.Ok? ==> Some(r.value.elapsedTime) == parseDouble(r.value.fields[1])
    ensures r.Err? ==> r.fault in {IndexOutOfBounds, NumberFormat}
  {
    var fields := Split(line, ',');
    if |fields| == 0 then Err(IndexOutOfBounds)
    else match parseDouble(fields[0])
      case None => Err(NumberFormat)
      case Some(g) =>
        if |fields| < 2 then Err(IndexOutOfBounds)
        else match parseDouble(fields[1])
          case None => Err(NumberFormat)
          case Some(e) => Ok(Row(fields, g, e))
  }

  /** The rows of a block in reading order; the first row that fails ends the program. */
  function ParseRows(lines: seq<string>, parseDouble: string -> Option<real>): (r: Result<seq<Row>>)
    ensures r.Ok? ==> |r.value| == |lines|
  {
    if |lines| == 0 then Ok([])
    else match ParseRows(lines[..|lines| - 1], parseDouble)
      case Err(f) => Err(f)
      case Ok(rows) =>
        match ParseRow(lines[|lines| - 1], parseDouble)
        case Err(f) => Err(f)
        case Ok(row) => Ok(rows + [row])
  }

  /** Each parsed row is the parse of its own line. */
  lemma {:induction false} ParseRowsFacts(lines: seq<string>, parseDouble: string -> Option<real>, i: nat)
    requires ParseRows(lines, parseDouble).Ok? && i < |lines|
    ensures ParseRow(lines[i], parseDouble) == Ok(ParseRows(lines, parseDouble).value[i])
  {
    if i < |lines| - 1 {
      var init := lines[..|lines| - 1];
      ParseRowsFacts(init, parseDouble, i);
      assert init[i] == lines[i];
    }
  }

  /** A row that fails makes every longer block fail with the same fault. */
  lemma {:induction false} ParseRowsErrExtends(lines: seq<string>, parseDouble: string -> Option<real>, k: nat)
    requires k <= |lines| && ParseRows(lines[..k], parseDouble).Err?
    ensures ParseRows(lines, parseDouble) == ParseRows(lines[..k], parseDouble)
    decreases |lines| - k
  {
    if k < |lines| {
      var init := lines[..|lines| - 1];
      assert init[..k] == lines[..k];
      ParseRowsErrExtends(init, parseDouble, k);
    }
    else {
      assert lines[..k] == lines;
    }
  }

  function GenCnts(rows: seq<Row>): (g: seq<real>)
    ensures |g| == |rows| && forall i :: 0 <= i < |rows| ==> g[i] == rows[i].genCnt
  {
    seq(|rows|, i requires 0 <= i < |rows| => rows[i].genCnt)
  }

  function ElapsedTimes(rows: seq<Row>): (e: seq<real>)
    ensures |e| == |rows| && forall i :: 0 <= i < |rows| ==> e[i] == rows[i].elapsedTime
  {
    seq(|rows|, i requires 0 <= i < |rows| => rows[i].elapsedTime)
  }

  /**
   * The summary of one block: means and trimmed means of both columns, and columns 3 to 15
   * of the block's second row; a block whose second row is shorter fails in writeCsvSummary.
   */
  function Summarized(rows: seq<Row>): (r: Result<Summary>)
    ensures r.Err? <==> |rows| < 2 || |rows[1].fields| < SettingsTo
    ensures r.Ok? ==> r.value.avgGenCnt == Average(GenCnts(rows))
    ensures r.Ok? ==> r.value.trimmedGenCnt == TrimmedAvgAsWritten(GenCnts(rows), TrimPercent)
    ensures r.Ok? ==> r.value.avgElapsedTime == Average(ElapsedTimes(rows))
    ensures r.Ok? ==> r.value.trimmedElapsedTime == TrimmedAvgAsWritten(ElapsedTimes(rows), TrimPercent)
    ensures r.Ok? ==> |r.value.settings| == SettingsTo - SettingsFrom
    ensures r.Ok? ==> forall k :: 0 <= k < |r.value.settings| ==> r.value.settings[k] == rows[1].fields[SettingsFrom + k]
  {
    var g := GenCnts(rows);
    var e := ElapsedTimes(rows);
    if |rows| < 2 || |rows[1].fields| < SettingsTo then Err(IndexOutOfBounds)
    else Ok(Summary(BlockLabel, Average(g), TrimmedAvgAsWritten(g, TrimPercent),
                    Average(e), TrimmedAvgAsWritten(e, TrimPercent), rows[1].fields[SettingsFrom..SettingsTo]))
  }

  function Min(a: int, b: int): int { if a <= b then a else b }

  /**
   * The rows read for block k, whose first line is line 101k + 1 (after the header and k
   * blocks of 100 rows, each followed by a separator line): up to 100 lines, fewer at the end.
   */
  function BlockRows(lines: seq<string>, k: nat, parseDouble: string -> Option<real>): Result<seq<Row>>
    requires 101 * k + 1 <= |lines|
  {
    var pos := 101 * k + 1;
    ParseRows(lines[pos..pos + Min(BlockSize, |lines| - pos)], parseDouble)
  }

  /**
   * The main loop from block k, the header or the separator before it having just been read:
   * up to 100 rows are read; a short block ends the file; a full block is summarised by
   * summarize (writeCsvSummary, which Summarize supplies as Summarized) and the following
   * separator line skipped, whatever it holds.
   */
  function SummarizeFrom(lines: seq<string>, k: nat, parseDouble: string -> Option<real>,
                         summarize: seq<Row> -> Result<Summary>, done: seq<Summary>): (r: Report)
    requires 101 * k + 1 <= |lines|
    decreases |lines| - 101 * k
    ensures done <= r.summaries
  {
    match BlockRows(lines, k, parseDouble)
    case Err(f) => Report(done, Fail(f))
    case Ok(rows) =>
      if |rows| < BlockSize then Report(done, Pass)
      else match summarize(rows)
        case Err(f) => Report(done, Fail(f))
        case Ok(s) =>
          if 101 * k + 101 < |lines| then SummarizeFrom(lines, k + 1, parseDouble, summarize, done + [s])
          else Report(done + [s], Pass)
  }

  /** The whole file; an empty file has no header and the loop never runs. */
  function Summarize(lines: seq<string>, parseDouble: string -> Option<real>): (r: Report)
    ensures |lines| == 0 ==> r == Report([], Pass)
    ensures 101 * |r.summaries| <= |lines|
  {
    if |lines| == 0 then Report([], Pass)
    else
      SummarizeFromFacts(lines, 0, parseDouble, Summarized, []);
      SummarizeFrom(lines, 0, parseDouble, Summarized, [])
  }

  /** The summary of the k-th block, which occupies lines 101k + 1 to 101k + 100. */
  function BlockAt(lines: seq<string>, k: nat, parseDouble: string -> Option<real>,
                   summarize: seq<Row> -> Result<Summary>): Result<Summary>
    requires 101 * k + 101 <= |lines|
  {
    match BlockRows(lines, k, parseDouble)
    case Err(f) => Err(f)
    case Ok(rows) => summarize(rows)
  }

  /** The rows of block k are those of the lines from 101k + 1 on, up to 100 of them. */
  lemma BlockRowsAt(lines: seq<string>, k: nat, parseDouble: string -> Option<real>)
    requires 101 * k + 1 <= |lines|
    ensures var pos := 101 * k + 1;
      BlockRows(lines, k, parseDouble) == ParseRows(lines[pos..pos + Min(BlockSize, |lines| - pos)], parseDouble)
  {
  }

  /** One turn of the main loop, as SummarizeCsv takes it. */
  lemma SummarizeFromStep(lines: seq<string>, k: nat, parseDouble: string -> Option<real>,
                          summarize: seq<Row> -> Result<Summary>, done: seq<Summary>)
    requires 101 * k + 1 <= |lines|
    ensures var r := SummarizeFrom(lines, k, parseDouble, summarize, done);
      match BlockRows(lines, k, parseDouble)
      case Err(f) => r == Report(done, Fail(f))
      case Ok(rows) =>
        if |rows| < BlockSize then r == Report(done, Pass)
        else
          101 * k + 101 <= |lines| &&
          match summarize(rows)
          case Err(f) => r == Report(done, Fail(f))
          case Ok(s) =>
            if 101 * k + 101 < |lines| then r == SummarizeFrom(lines, k + 1, parseDouble, summarize, done + [s])
            else r == Report(done + [s], Pass)
  {
  }

  /** All summaries so far are those of the blocks they stand for. */
  ghost predicate BlocksAgree(lines: seq<string>, parseDouble: string -> Option<real>,
                              summarize: seq<Row> -> Result<Summary>, summaries: seq<Summary>)
  {
    forall k :: 0 <= k < |summaries| ==>
      101 * k + 101 <= |lines| && BlockAt(lines, k, parseDouble, summarize) == Ok(summaries[k])
  }

  /** k blocks of 101 lines fit in n lines, and they are all there is when fewer than 101 lines remain. */
  lemma BlockCount(n: int, k: nat)
    requires 101 * k <= n
    ensures k <= n / 101
    ensures n < 101 * k + 101 ==> n / 101 == k
  {
  }

  /** A summary that is the next block's extends an agreeing list of summaries. */
  lemma BlocksExtend(lines: seq<string>, parseDouble: string -> Option<real>,
                     summarize: seq<Row> -> Result<Summary>, done: seq<Summary>, s: Summary)
    requires BlocksAgree(lines, parseDouble, summarize, done)
    requires 101 * |done| + 101 <= |lines| && BlockAt(lines, |done|, parseDouble, summarize) == Ok(s)
    ensures BlocksAgree(lines, parseDouble, summarize, done + [s])
  {
    var done' := done + [s];
    forall j | 0 <= j < |done'|
      ensures 101 * j + 101 <= |lines| && BlockAt(lines, j, parseDouble, summarize) == Ok(done'[j])
    {
      if j < |done| {
        assert done'[j] == done[j];
      }
    }
  }

  lemma {:induction false} SummarizeFromFacts(lines: seq<string>, k: nat, parseDouble: string -> Option<real>,
                                              summarize: seq<Row> -> Result<Summary>, done: seq<Summary>)
    requires 101 * k + 1 <= |lines| && k == |done|
    requires BlocksAgree(lines, parseDouble, summarize, done)
    ensures var r := SummarizeFrom(lines, k, parseDouble, summarize, done);
      BlocksAgree(lines, parseDouble, summarize, r.summaries) &&
      |r.summaries| <= |lines| / 101 &&
      (r.outcome.Pass? ==> |r.summaries| == |lines| / 101)
    decreases |lines| - 101 * k
  {
    BlockCount(|lines|, k);
    match BlockRows(lines, k, parseDouble)
    case Err(f) =>
    case Ok(rows) =>
      if |rows| == BlockSize {
        match summarize(rows)
        case Err(f) =>
        case Ok(s) =>
          BlocksExtend(lines, parseDouble, summarize, done, s);
          if 101 * k + 101 < |lines| {
            SummarizeFromFacts(lines, k + 1, parseDouble, summarize, done + [s]);
          } else {
            BlockCount(|lines|, k + 1);
          }
      }
  }

  /**
   * The summaries are those of the complete blocks, in file order; no more complete blocks
   * exist than the file has room for, and when main ends normally every one was summarised.
   */
  lemma SummarizeBlocks(lines: seq<string>, parseDouble: string -> Option<real>)
    ensures var r := Summarize(lines, parseDouble);
      BlocksAgree(lines, parseDouble, Summarized, r.summaries) &&
      |r.summaries| <= |lines| / 101 &&
      (r.outcome.Pass? ==> |r.summaries| == |lines| / 101)
  {
    if |lines| > 0 {
      SummarizeFromFacts(lines, 0, parseDouble, Summarized, []);
    }
  }

  // ---------------------------------------------------------------- the reading loop

  /** The inner for loop: up to 100 lines are read and parsed; a missing line ends it. */
  method ReadBlock(lines: seq<string>, pos: nat, parseDouble: string -> Option<real>) returns (r: Result<seq<Row>>, next: nat)
    requires pos <= |lines|
    ensures next == pos + Min(BlockSize, |lines| - pos)
    ensures r == ParseRows(lines[pos..next], parseDouble)
  {
    next := pos + Min(BlockSize, |lines| - pos);
    var block := lines[pos..next];
    var rows: seq<Row> := [];
    var i := 0;
    while i < BlockSize && pos + i < |lines|
      invariant 0 <= i <= |block| == next - pos
      invariant (i < BlockSize && pos + i < |lines|) <==> i < |block|
      invariant ParseRows(block[..i], parseDouble) == Ok(rows)
    {
      var row := ParseRow(block[i], parseDouble);
      ParseRowsStep(block, i, parseDouble);
      if row.Err? {
        ParseRowsErrExtends(block, parseDouble, i + 1);
        return Err(row.fault), next;
      }
      rows := rows + [row.value];
      i := i + 1;
    }
    assert block[..i] == block;
    r := Ok(rows);
  }

  /** Reading one more line extends the rows read so far by that line's row. */
  lemma ParseRowsStep(block: seq<string>, i: nat, parseDouble: string -> Option<real>)
    requires i < |block|
    ensures ParseRows(block[..i + 1], parseDouble) ==
      match ParseRows(block[..i], parseDouble)
      case Err(f) => Err(f)
      case Ok(rows) =>
        match ParseRow(block[i], parseDouble)
        case Err(f) => Err(f)
        case Ok(row) => Ok(rows + [row])
  {
    assert block[..i + 1][..i] == block[..i];
  }

  /** The summary of a full block, computed the way main computes it before writing. */
  method SummarizeBlock(rows: seq<Row>) returns (r: Result<Summary>)
    ensures r == Summarized(rows)
  {
    var genCnt := GenCnts(rows);
    var elapsedTime := ElapsedTimes(rows);
    var avgGenCnt := CalculateAvg(genCnt);
    var sortedGenCnt := new real[|genCnt|](i requires 0 <= i < |genCnt| => genCnt[i]);
    assert sortedGenCnt[..] == genCnt;
    var trimmedGenCnt := CalculateTrimmedAvg(sortedGenCnt, TrimPercent);
    var avgElapsedTime := CalculateAvg(elapsedTime);
    var sortedElapsed := new real[|elapsedTime|](i requires 0 <= i < |elapsedTime| => elapsedTime[i]);
    assert sortedElapsed[..] == elapsedTime;
    var trimmedElapsedTime := CalculateTrimmedAvg(sortedElapsed, TrimPercent);
    if |rows| < 2 || |rows[1].fields| < SettingsTo {
      return Err(IndexOutOfBounds);
    }
    r := Ok(Summary(BlockLabel, avgGenCnt, trimmedGenCnt, avgElapsedTime, trimmedElapsedTime,
                    rows[1].fields[SettingsFrom..SettingsTo]));
  }

  /**
   * One turn of main's loop at block k: the block is read and, when full, summarized and
   * written. Either the program ends here with `out`, or it goes on at block k + 1 with
   * `more` written so far.
   */
  method SummarizeTurn(lines: seq<string>, k: nat, parseDouble: string -> Option<real>, summaries: seq<Summary>)
    returns (done: bool, out: Report, more: seq<Summary>)
    requires 101 * k + 1 <= |lines|
    ensures done ==> SummarizeFrom(lines, k, parseDouble, Summarized, summaries) == out
    ensures !done ==> 101 * k + 102 <= |lines|
    ensures !done ==>
      SummarizeFrom(lines, k, parseDouble, Summarized, summaries) == SummarizeFrom(lines, k + 1, parseDouble, Summarized, more)
  {
    var rows, next := ReadBlock(lines, 101 * k + 1, parseDouble);
    BlockRowsAt(lines, k, parseDouble);
    SummarizeFromStep(lines, k, parseDouble, Summarized, summaries);
    more := summaries;
    if rows.Err? {
      return true, Report(summaries, Fail(rows.fault)), more;
    }
    if |rows.value| < BlockSize {
      return true, Report(summaries, Pass), more;
    }
    var s := SummarizeBlock(rows.value);
    if s.Err? {
      return true, Report(summaries, Fail(s.fault)), more;
    }
    more := summaries + [s.value];
    done := next >= |lines|;
    out := Report(more, Pass);
  }

  /**
   * main: the header is read, then blocks are read while the last line read was present;
   * an exception from parsing or from writeCsvSummary ends the program.
   */
  method SummarizeCsv(lines: seq<string>, parseDouble: string -> Option<real>) returns (report: Report)
    ensures report == Summarize(lines, parseDouble)
  {
    var summaries: seq<Summary> := [];
    report := Report([], Pass);
    var present := |lines| > 0;
    var k: nat := 0;
    while present
      invariant present ==> 101 * k + 1 <= |lines| && Summarize(lines, parseDouble) == SummarizeFrom(lines, k, parseDouble, Summarized, summaries)
      invariant !present ==> Summarize(lines, parseDouble) == report
      decreases if present then |lines| - 101 * k else 0
    {
      var done, out, more := SummarizeTurn(lines, k, parseDouble, summaries);
      if done {
        report := out;
        present := false;
      } else {
        summaries := more;
        k := k + 1;
      }
    }
  }
}
