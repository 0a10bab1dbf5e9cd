/**
 * The measurement side of the test harness: reading the elapsed time out of
 * an engine log (`get_time`), choosing how many times to run a workload, and
 * averaging the timings of the runs that reported one (`test_one_graph`).
 *
 * The engine runs themselves are not modelled: each run is given by the lines
 * of the log it left behind. Turning the captured text into a number
 * (`float` and `round(..., 6)`) is the parameter `seconds`.
 */
module Timing {
  import opened Wrappers

  const TimePrefix: string := "Total time: "
  const TimeSuffix: string := " s\n"

  /** The line an engine prints for an elapsed time `x`. */
  function TotalTimeLine(x: string): string
  {
    TimePrefix + x + TimeSuffix
  }

  /**
   * `re.fullmatch('(Total time:) (.*) s\n', line)` together with the
   * `re.sub(..., '\g<2>', line)` that follows it: the text of group 2 when the
   * whole line matches. `.` matches anything but a newline.
   */
  function MatchTotalTime(line: string): (r: Option<string>)
    ensures r.Some? ==> '\n' !in r.value && |line| == |TimePrefix| + |r.value| + |TimeSuffix|
  {
    if |line| >= |TimePrefix| + |TimeSuffix|
       && line[..|TimePrefix|] == TimePrefix
       && line[|line| - |TimeSuffix|..] == TimeSuffix
       && '\n' !in line[|TimePrefix|..|line| - |TimeSuffix|]
    then Some(line[|TimePrefix|..|line| - |TimeSuffix|])
    else None
  }

  /**
   * A line matches exactly when it is the timing line of some newline-free
   * text, and the match captures that text.
   */
  lemma MatchTotalTimeExactly(line: string, x: string)
    ensures MatchTotalTime(line) == Some(x) <==> (line == TotalTimeLine(x) && '\n' !in x)
  {
    if line == TotalTimeLine(x) && '\n' !in x {
      assert line[..|TimePrefix|] == TimePrefix;
      assert line[|line| - |TimeSuffix|..] == TimeSuffix;
      assert line[|TimePrefix|..|line| - |TimeSuffix|] == x;
    }
    if MatchTotalTime(line) == Some(x) {
      assert line == line[..|TimePrefix|] + line[|TimePrefix|..|line| - |TimeSuffix|] + line[|line| - |TimeSuffix|..];
    }
  }

  /** The text captured from the last matching line of a log, if any line matches. */
  function LastTotalTime(lines: seq<string>): (r: Option<string>)
    ensures r.Some? ==> '\n' !in r.value
  {
    if lines == [] then None
    else
      match MatchTotalTime(lines[|lines| - 1])
      case Some(x) => Some(x)
      case None => LastTotalTime(lines[..|lines| - 1])
  }

  /**
   * `get_time` reports nothing exactly when no line matches, and otherwise the
   * capture of a matching line after which no line matches: the last one wins.
   */
  lemma {:induction false} LastTotalTimeIsLastMatch(lines: seq<string>)
    ensures LastTotalTime(lines).None? <==> forall k :: 0 <= k < |lines| ==> MatchTotalTime(lines[k]).None?
    ensures LastTotalTime(lines).Some? ==>
              exists k :: 0 <= k < |lines| && MatchTotalTime(lines[k]) == LastTotalTime(lines)
                          && forall k' :: k < k' < |lines| ==> MatchTotalTime(lines[k']).None?
  {
    if lines != [] {
      var front, last := lines[..|lines| - 1], |lines| - 1;
      LastTotalTimeIsLastMatch(front);
      assert forall k :: 0 <= k < |front| ==> front[k] == lines[k];
      if MatchTotalTime(lines[last]).Some? {
        assert LastTotalTime(lines) == MatchTotalTime(lines[last]);
      } else {
        assert LastTotalTime(lines) == LastTotalTime(front);
        if LastTotalTime(front).Some? {
          var k :| 0 <= k < |front| && MatchTotalTime(front[k]) == LastTotalTime(front)
                   && forall k' :: k < k' < |front| ==> MatchTotalTime(front[k']).None?;
          assert MatchTotalTime(lines[k]) == LastTotalTime(lines);
          assert forall k' :: k < k' < |lines| ==> MatchTotalTime(lines[k']).None?;
        }
      }
    }
  }

  /** `get_time`: scan the log, overwriting the result on every matching line. */
  method GetTime(lines: seq<string>) returns (time: Option<string>)
    ensures time == LastTotalTime(lines)
  {
    time := None;
    var i := 0;
    while i < |lines|
      invariant 0 <= i <= |lines|
      invariant time == LastTotalTime(lines[..i])
    {
      assert lines[..i + 1][..i] == lines[..i];
      var m := MatchTotalTime(lines[i]);
      if m.Some? {
        time := m;
      }
      i := i + 1;
    }
    assert lines[..i] == lines;
  }

  /** How many times `test_one_graph` runs a workload of `qSize` lines. */
  function RepeatCount(qSize: int): (n: nat)
    ensures n >= 2
  {
    if qSize > 40000 then 2
    else if qSize > 10000 then 10
    else 100
  }

  /** The tiers: 100 runs up to 10000 lines, 10 up to 40000, 2 beyond. */
  lemma RepeatCountTiers(qSize: int)
    ensures RepeatCount(qSize) == 100 <==> qSize <= 10000
    ensures RepeatCount(qSize) == 10 <==> 10000 < qSize <= 40000
    ensures RepeatCount(qSize) == 2 <==> 40000 < qSize
  {
  }

  /** Larger workloads never run more often. */
  lemma RepeatCountNonIncreasing(a: int, b: int)
    requires a <= b
    ensures RepeatCount(b) <= RepeatCount(a)
  {
  }

  /** The sum of the timings that were reported. */
  function SumSome(xs: seq<Option<real>>): (r: real)
    ensures CountSome(xs) == 0 ==> r == 0.0
  {
    if xs == [] then 0.0
    else SumSome(xs[..|xs| - 1]) + (if xs[|xs| - 1].Some? then xs[|xs| - 1].value else 0.0)
  }

  /** How many runs reported a timing. */
  function CountSome(xs: seq<Option<real>>): (c: nat)
    ensures c <= |xs|
  {
    if xs == [] then 0
    else CountSome(xs[..|xs| - 1]) + (if xs[|xs| - 1].Some? then 1 else 0)
  }

  datatype MeasureError = ZeroDivisionError

  /** `time / cnt` over the runs that reported a timing; Python raises when there were none. */
  function Average(xs: seq<Option<real>>): (r: Result<real, MeasureError>)
    ensures r.Ok? ==> CountSome(xs) > 0 && r.value * (CountSome(xs) as real) == SumSome(xs)
  {
    if CountSome(xs) == 0 then Err(ZeroDivisionError)
    else Ok(SumSome(xs) / (CountSome(xs) as real))
  }

  /** The averaging fails exactly when no run reported a timing. */
  lemma {:induction false} AverageFailsIffNoTiming(xs: seq<Option<real>>)
    ensures Average(xs).Err? <==> forall k :: 0 <= k < |xs| ==> xs[k].None?
  {
    CountSomeZero(xs);
  }

  lemma {:induction false} CountSomeZero(xs: seq<Option<real>>)
    ensures CountSome(xs) == 0 <==> forall k :: 0 <= k < |xs| ==> xs[k].None?
  {
    if xs != [] {
      var front := xs[..|xs| - 1];
      CountSomeZero(front);
      assert forall k :: 0 <= k < |front| ==> front[k] == xs[k];
    }
  }

  /** `x` taken `c` times, summed the way the harness accumulates timings. */
  function Times(c: nat, x: real): real
  {
    if c == 0 then 0.0 else Times(c - 1, x) + x
  }

  /** Summing `x` `c` times is multiplying it by `c`. */
  lemma {:induction false} TimesIsProduct(c: nat, x: real)
    ensures Times(c, x) == (c as real) * x
  {
    if c > 0 {
      TimesIsProduct(c - 1, x);
      assert ((c - 1) as real + 1.0) * x == ((c - 1) as real) * x + x;
    }
  }

  /** With every reported timing at least `lo`, the sum is at least `lo` once per reported timing. */
  lemma {:induction false} SumSomeAtLeast(xs: seq<Option<real>>, lo: real)
    requires forall k :: 0 <= k < |xs| && xs[k].Some? ==> lo <= xs[k].value
    ensures Times(CountSome(xs), lo) <= SumSome(xs)
  {
    if xs != [] {
      var front := xs[..|xs| - 1];
      assert forall k :: 0 <= k < |front| ==> front[k] == xs[k];
      SumSomeAtLeast(front, lo);
    }
  }

  /** With every reported timing at most `hi`, the sum is at most `hi` once per reported timing. */
  lemma {:induction false} SumSomeAtMost(xs: seq<Option<real>>, hi: real)
    requires forall k :: 0 <= k < |xs| && xs[k].Some? ==> xs[k].value <= hi
    ensures SumSome(xs) <= Times(CountSome(xs), hi)
  {
    if xs != [] {
      var front := xs[..|xs| - 1];
      assert forall k :: 0 <= k < |front| ==> front[k] == xs[k];
      SumSomeAtMost(front, hi);
    }
  }

  lemma PositiveProduct(x: real, y: real)
    requires x > 0.0 && y > 0.0
    ensures x * y > 0.0
  {
  }

  lemma DivideBounds(s: real, c: real, lo: real, hi: real)
    requires c > 0.0 && c * lo <= s <= c * hi
    ensures lo <= s / c <= hi
  {
    var a := s / c;
    assert a * c == s;
    if a < lo {
      PositiveProduct(lo - a, c);
    }
    if a > hi {
      PositiveProduct(a - hi, c);
    }
  }

  /**
   * Failed runs do not drag the average: it lies between the smallest and the
   * largest timing that was reported.
   */
  lemma AverageWithinBounds(xs: seq<Option<real>>, lo: real, hi: real)
    requires forall k :: 0 <= k < |xs| && xs[k].Some? ==> lo <= xs[k].value <= hi
    requires Average(xs).Ok?
    ensures lo <= Average(xs).value <= hi
  {
    SumSomeAtLeast(xs, lo);
    SumSomeAtMost(xs, hi);
    QuotientBounds(SumSome(xs), CountSome(xs), lo, hi);
  }

  /** A sum between `lo` and `hi` taken `c` times, divided by `c`, lies between `lo` and `hi`. */
  lemma QuotientBounds(s: real, c: nat, lo: real, hi: real)
    requires c > 0 && Times(c, lo) <= s <= Times(c, hi)
    ensures lo <= s / (c as real) <= hi
  {
    TimesIsProduct(c, lo);
    TimesIsProduct(c, hi);
    DivideBounds(s, c as real, lo, hi);
  }

  /** What each run contributes: its timing, or nothing when its log has no timing line. */
  function Outcomes(logs: seq<seq<string>>, seconds: string -> real): (r: seq<Option<real>>)
    ensures |r| == |logs|
  {
    seq(|logs|, k requires 0 <= k < |logs| =>
      match LastTotalTime(logs[k])
      case None => None
      case Some(x) => Some(seconds(x)))
  }

  /**
   * The measuring part of `test_one_graph`: one `get_time` per run, the
   * timings of the runs that reported one summed and counted, then divided.
   * `logs[i]` is the log of the `i`-th run.
   */
  method TestOneGraph(qSize: int, logs: seq<seq<string>>, seconds: string -> real) returns (r: Result<real, MeasureError>)
    requires |logs| == RepeatCount(qSize)
    ensures r == Average(Outcomes(logs, seconds))
  {
    var n := RepeatCount(qSize);
    ghost var xs := Outcomes(logs, seconds);
    var time: real := 0.0;
    var cnt: nat := 0;
    var i := 0;
    while i < n
      invariant 0 <= i <= n
      invariant time == SumSome(xs[..i]) && cnt == CountSome(xs[..i])
    {
      assert xs[..i + 1][..i] == xs[..i];
      var res := GetTime(logs[i]);
      if res.Some? {
        time := time + seconds(res.value);
        cnt := cnt + 1;
      }
      i := i + 1;
    }
    assert xs[..i] == xs;
    if cnt == 0 {
      r := Err(ZeroDivisionError);
    } else {
      r := Ok(time / (cnt as real));
    }
  }
}
