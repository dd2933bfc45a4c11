/**
  getAggregation: the statistics of one (bucket, tag key) sample list.
  Requested identifiers are "cnt" (the sample count), "avg" (the sum divided
  by the count, truncated toward zero, with the sum kept in a wrapping Go
  int) and "p<N>" (the element at index cnt*N/100 - 1 of the samples in
  increasing order). Any other identifier is skipped.
*/
module Stats {
  import opened Wrappers
  import opened GoInt
  import opened Strconv
  import opened Sorting
  import opened Faults

  /** What one requested identifier contributes to the result map. */
  datatype StatOutcome = Skip | Value(v: int) | Panic(fault: Fault)

  /** cnt*N/100 - 1 with Go's wrapping int product and truncating quotient. */
  function PercentileIndex(cnt: int, proportion: int): (k: int)
    ensures 0 <= cnt * proportion <= MAX ==> k == cnt * proportion / 100 - 1
    ensures InRange(k + 1)
  {
    TruncDiv(Wrap(cnt * proportion), 100) - 1
  }

  /** One case of the switch over an aggregation identifier. */
  function Stat(sorted: seq<int>, avg: int, id: string): (r: StatOutcome)
    ensures r.Skip? <==> |id| > 0 && id[0] != 'p' && id != "cnt" && id != "avg"
    ensures r.Value? && id != "cnt" && id != "avg" ==> r.v in sorted
  {
    if id == "cnt" then Value(|sorted|)
    else if id == "avg" then Value(avg)
    else if |id| == 0 then Panic(EmptyAggregation)
    else if id[0] != 'p' then Skip
    else
      var proportion := ParseInt(id[1..]);
      if !proportion.ok then Panic(BadProportion(id))
      else
        var k := PercentileIndex(|sorted|, proportion.value);
        if 0 <= k < |sorted| then Value(sorted[k]) else Panic(PercentileOutOfRange(id))
  }

  /** The result map filled identifier by identifier, stopping at the first panic. */
  function Fill(sorted: seq<int>, avg: int, ids: seq<string>): (r: Result<map<string, int>, Fault>)
    ensures r.Success? ==> forall id :: id in r.value ==> id in ids
  {
    if ids == [] then Success(map[])
    else
      match Fill(sorted, avg, ids[..|ids| - 1])
      case Failure(f) => Failure(f)
      case Success(m) =>
        var id := ids[|ids| - 1];
        match Stat(sorted, avg, id)
        case Skip => Success(m)
        case Value(v) => Success(m[id := v])
        case Panic(f) => Failure(f)
  }

  /** The truncated average as the source computes it: the wrapped sum over the count. */
  function Average(sorted: seq<int>): int
    requires |sorted| > 0
  {
    TruncDiv(Wrap(Sum(sorted)), |sorted|)
  }

  /** getAggregation: sort, sum, then fill the map. */
  function Aggregate(samples: seq<int>, aggregations: seq<string>): (r: Result<map<string, int>, Fault>)
    requires |samples| > 0
    ensures r.Success? ==> forall id :: id in r.value ==> id in aggregations
  {
    var sorted := SortSeq(samples);
    Fill(sorted, Average(sorted), aggregations)
  }

  /** getAggregation, step by step: the slice is sorted in place, summed, then read. */
  method GetAggregation(targetValue: seq<int>, aggregations: seq<string>)
    returns (r: Result<map<string, int>, Fault>)
    ensures |targetValue| == 0 ==> r == Failure(DivideByZero)
    ensures |targetValue| > 0 ==> r == Aggregate(targetValue, aggregations)
  {
    var cnt := |targetValue|;
    var values := new int[cnt](k requires 0 <= k < cnt => targetValue[k]);
    assert values[..] == targetValue;
    SortInts(values);
    var sorted := values[..];
    var sum := 0;
    assert sorted[..0] == [] && Wrap(0) == 0;
    for k := 0 to cnt
      invariant values[..] == sorted
      invariant sum == Wrap(Sum(sorted[..k]))
    {
      WrappedSumStep(sorted, k);
      sum := Wrap(sum + sorted[k]);
    }
    if cnt == 0 {
      return Failure(DivideByZero);
    }
    assert sorted[..cnt] == sorted;
    var avg := TruncDiv(sum, cnt);
    r := FillResults(sorted, avg, aggregations);
  }

  /**
    The loop of getAggregation over the requested identifiers, reading the
    sorted samples and the average computed before it.
  */
  method FillResults(sorted: seq<int>, avg: int, aggregations: seq<string>)
    returns (r: Result<map<string, int>, Fault>)
    ensures r == Fill(sorted, avg, aggregations)
  {
    var cnt := |sorted|;
    var results := map[];
    for i := 0 to |aggregations|
      invariant Fill(sorted, avg, aggregations[..i]) == Success(results)
    {
      var id := aggregations[i];
      FillSnoc(sorted, avg, aggregations, i);
      if id == "cnt" {
        results := results["cnt" := cnt];
      } else if id == "avg" {
        results := results["avg" := avg];
      } else if |id| == 0 {
        FillPrefixFailure(sorted, avg, aggregations, i + 1);
        return Failure(EmptyAggregation);
      } else if id[0] == 'p' {
        var proportion := ParseInt(id[1..]);
        if !proportion.ok {
          FillPrefixFailure(sorted, avg, aggregations, i + 1);
          return Failure(BadProportion(id));
        }
        var k := TruncDiv(Wrap(cnt * proportion.value), 100) - 1;
        if k < 0 || k >= cnt {
          FillPrefixFailure(sorted, avg, aggregations, i + 1);
          return Failure(PercentileOutOfRange(id));
        }
        results := results[id := sorted[k]];
      }
    }
    assert aggregations[..|aggregations|] == aggregations;
    return Success(results);
  }

  /** Adding one more sample to a wrapping running sum. */
  lemma WrappedSumStep(s: seq<int>, k: nat)
    requires k < |s|
    ensures Wrap(Wrap(Sum(s[..k])) + s[k]) == Wrap(Sum(s[..k + 1]))
  {
    assert s[..k + 1][..k] == s[..k];
    assert Sum(s[..k + 1]) == Sum(s[..k]) + s[k];
    WrapAdd(Sum(s[..k]), s[k]);
  }

  /** Fill over one more identifier. */
  lemma FillSnoc(sorted: seq<int>, avg: int, ids: seq<string>, i: nat)
    requires i < |ids|
    ensures Fill(sorted, avg, ids[..i + 1]) ==
      match Fill(sorted, avg, ids[..i])
      case Failure(f) => Failure(f)
      case Success(m) =>
        match Stat(sorted, avg, ids[i])
        case Skip => Success(m)
        case Value(v) => Success(m[ids[i] := v])
        case Panic(f) => Failure(f)
  {
    assert ids[..i + 1][..i] == ids[..i];
  }

  // ---------------------------------------------------------------------
  // Fill, identifier by identifier.

  /** Once a prefix of the identifiers panics, the whole list panics the same way. */
  lemma {:induction false} FillPrefixFailure(sorted: seq<int>, avg: int, ids: seq<string>, k: nat)
    requires k <= |ids| && Fill(sorted, avg, ids[..k]).Failure?
    ensures Fill(sorted, avg, ids) == Fill(sorted, avg, ids[..k])
    decreases |ids| - k
  {
    if k < |ids| {
      assert ids[..k + 1][..k] == ids[..k];
      FillPrefixFailure(sorted, avg, ids, k + 1);
    } else {
      assert ids[..k] == ids;
    }
  }

  /** Fill succeeds exactly when no identifier panics. */
  lemma {:induction false} FillSucceeds(sorted: seq<int>, avg: int, ids: seq<string>)
    ensures Fill(sorted, avg, ids).Success? <==>
      forall i :: 0 <= i < |ids| ==> !Stat(sorted, avg, ids[i]).Panic?
  {
    if ids != [] {
      var init := ids[..|ids| - 1];
      FillSucceeds(sorted, avg, init);
      assert forall i :: 0 <= i < |init| ==> init[i] == ids[i];
    }
  }

  /** When Fill fails, it reports the first identifier that panics. */
  lemma {:induction false} FillFailure(sorted: seq<int>, avg: int, ids: seq<string>)
    requires Fill(sorted, avg, ids).Failure?
    ensures exists i :: (0 <= i < |ids| && Stat(sorted, avg, ids[i]) == Panic(Fill(sorted, avg, ids).error) &&
      forall j :: 0 <= j < i ==> !Stat(sorted, avg, ids[j]).Panic?)
  {
    var init := ids[..|ids| - 1];
    assert forall i :: 0 <= i < |init| ==> init[i] == ids[i];
    if Fill(sorted, avg, init).Failure? {
      FillFailure(sorted, avg, init);
    } else {
      FillSucceeds(sorted, avg, init);
      assert Stat(sorted, avg, ids[|ids| - 1]) == Panic(Fill(sorted, avg, ids).error);
    }
  }

  /** A successful Fill holds exactly the identifiers that are not skipped, each with its value. */
  lemma {:induction false} FillContents(sorted: seq<int>, avg: int, ids: seq<string>)
    requires Fill(sorted, avg, ids).Success?
    ensures var m := Fill(sorted, avg, ids).value;
      && (forall id :: id in m <==> id in ids && Stat(sorted, avg, id).Value?)
      && (forall id :: id in m ==> m[id] == Stat(sorted, avg, id).v)
  {
    if ids != [] {
      var init := ids[..|ids| - 1];
      FillContents(sorted, avg, init);
      assert ids == init + [ids[|ids| - 1]];
    }
  }

  // ---------------------------------------------------------------------
  // What getAggregation reports, stated without the loop.

  /** The identifiers that get an entry in the result map: "cnt", "avg" and "p...". */
  predicate Reported(id: string)
  {
    id == "cnt" || id == "avg" || (|id| > 0 && id[0] == 'p')
  }

  /** The identifiers on which getAggregation panics for a list of cnt samples. */
  predicate Panics(cnt: int, id: string)
  {
    && id != "cnt" && id != "avg"
    && (|id| == 0 ||
        (id[0] == 'p' &&
         (!ParseInt(id[1..]).ok || !(0 <= PercentileIndex(cnt, ParseInt(id[1..]).value) < cnt))))
  }

  /** The panic raised for an identifier in Panics. */
  function FaultOf(id: string): Fault
  {
    if |id| == 0 then EmptyAggregation
    else if !ParseInt(id[1..]).ok then BadProportion(id)
    else PercentileOutOfRange(id)
  }

  lemma StatPanics(sorted: seq<int>, avg: int, id: string)
    ensures Stat(sorted, avg, id).Panic? <==> Panics(|sorted|, id)
    ensures Stat(sorted, avg, id).Panic? ==> Stat(sorted, avg, id).fault == FaultOf(id)
    ensures Stat(sorted, avg, id).Value? <==> Reported(id) && !Panics(|sorted|, id)
  {
  }

  /** getAggregation returns a map exactly when no requested identifier panics. */
  lemma AggregateSucceeds(samples: seq<int>, aggregations: seq<string>)
    requires |samples| > 0
    ensures Aggregate(samples, aggregations).Success? <==>
      forall i :: 0 <= i < |aggregations| ==> !Panics(|samples|, aggregations[i])
  {
    var sorted := SortSeq(samples);
    FillSucceeds(sorted, Average(sorted), aggregations);
    forall i | 0 <= i < |aggregations| {
      StatPanics(sorted, Average(sorted), aggregations[i]);
    }
  }

  /** When it panics, it is at the first identifier that panics. */
  lemma AggregateFailure(samples: seq<int>, aggregations: seq<string>)
    requires |samples| > 0 && Aggregate(samples, aggregations).Failure?
    ensures exists i :: (0 <= i < |aggregations| && Panics(|samples|, aggregations[i]) &&
      Aggregate(samples, aggregations).error == FaultOf(aggregations[i]) &&
      forall j :: 0 <= j < i ==> !Panics(|samples|, aggregations[j]))
  {
    var sorted := SortSeq(samples);
    FillFailure(sorted, Average(sorted), aggregations);
    forall i | 0 <= i < |aggregations| {
      StatPanics(sorted, Average(sorted), aggregations[i]);
    }
  }

  /**
    The result has an entry for every requested "cnt", "avg" and "p..."
    identifier and for nothing else.
  */
  lemma AggregateKeys(samples: seq<int>, aggregations: seq<string>)
    requires |samples| > 0 && Aggregate(samples, aggregations).Success?
    ensures forall id :: id in Aggregate(samples, aggregations).value <==> id in aggregations && Reported(id)
  {
    var sorted := SortSeq(samples);
    FillContents(sorted, Average(sorted), aggregations);
    AggregateSucceeds(samples, aggregations);
    forall id | id in aggregations
      ensures Stat(sorted, Average(sorted), id).Value? <==> Reported(id)
    {
      StatPanics(sorted, Average(sorted), id);
      var i :| 0 <= i < |aggregations| && aggregations[i] == id;
    }
  }

  /** "cnt" is the number of samples. */
  lemma AggregateCount(samples: seq<int>, aggregations: seq<string>)
    requires |samples| > 0 && Aggregate(samples, aggregations).Success? && "cnt" in aggregations
    ensures var m := Aggregate(samples, aggregations).value; "cnt" in m && m["cnt"] == |samples|
  {
    var sorted := SortSeq(samples);
    FillContents(sorted, Average(sorted), aggregations);
  }

  /** "avg" is the wrapped sum of the samples divided by their count, truncated toward zero. */
  lemma AggregateAverage(samples: seq<int>, aggregations: seq<string>)
    requires |samples| > 0 && Aggregate(samples, aggregations).Success? && "avg" in aggregations
    ensures var m := Aggregate(samples, aggregations).value;
      "avg" in m && m["avg"] == TruncDiv(Wrap(Sum(samples)), |samples|)
  {
    var sorted := SortSeq(samples);
    FillContents(sorted, Average(sorted), aggregations);
    SumSortSeq(samples);
  }

  /**
    "p<N>" is the element at index cnt*N/100 - 1 of the samples in
    increasing order, so it is one of the samples.
  */
  lemma AggregatePercentile(samples: seq<int>, aggregations: seq<string>, id: string)
    requires |samples| > 0 && Aggregate(samples, aggregations).Success?
    requires id in aggregations && |id| > 0 && id[0] == 'p'
    ensures ParseInt(id[1..]).ok
    ensures var m, k := Aggregate(samples, aggregations).value, PercentileIndex(|samples|, ParseInt(id[1..]).value);
      && 0 <= k < |samples|
      && id in m && m[id] == SortSeq(samples)[k]
      && m[id] in samples
  {
    var sorted := SortSeq(samples);
    FillContents(sorted, Average(sorted), aggregations);
    AggregateSucceeds(samples, aggregations);
    var i :| 0 <= i < |aggregations| && aggregations[i] == id;
    assert !Panics(|samples|, id);
    var k := PercentileIndex(|samples|, ParseInt(id[1..]).value);
    SortSeqSorted(samples);
    assert sorted[k] in multiset(sorted);
  }

  // ---------------------------------------------------------------------
  // The percentile index.

  /**
    For a product cnt*N that does not wrap, the index cnt*N/100 - 1 lies
    inside the samples exactly when 100 <= cnt*N < 100*(cnt+1).
  */
  lemma PercentileIndexBounds(cnt: int, n: int)
    requires cnt > 0 && n >= 0 && cnt * n <= MAX
    ensures 0 <= PercentileIndex(cnt, n) < cnt <==> 100 <= cnt * n < 100 * (cnt + 1)
  {
    var p := cnt * n;
    assert Wrap(p) == p;
    assert TruncDiv(p, 100) == p / 100;
  }

  /** For 1 <= N <= 100 the index is inside the samples exactly when cnt*N >= 100. */
  lemma PercentileWithinRange(cnt: int, n: int)
    requires cnt > 0 && 1 <= n <= 100 && cnt <= MAX / 100
    ensures 0 <= PercentileIndex(cnt, n) < cnt <==> cnt * n >= 100
  {
    MulNonneg(cnt, 100 - n);
    PercentileIndexBounds(cnt, n);
  }

  lemma ParseSmall(s: string, n: nat)
    requires s == Digits(n) && n <= MAX
    ensures ParseInt(s) == Conversion(n, true)
  {
    ParseFormatRoundTrip(n);
  }

  /** "p100" is the largest sample. */
  lemma P100IsMax(samples: seq<int>, aggregations: seq<string>)
    requires |samples| > 0 && |samples| <= MAX / 100
    requires Aggregate(samples, aggregations).Success? && "p100" in aggregations
    ensures var m := Aggregate(samples, aggregations).value;
      "p100" in m && m["p100"] in samples && forall x :: x in samples ==> x <= m["p100"]
  {
    var cnt := |samples|;
    assert Digits(100) == "100" by {
      assert Digits(10) == Digits(1) + [DigitChar(0)];
    }
    assert "p100"[1..] == "100";
    ParseSmall("100", 100);
    assert Wrap(cnt * 100) == cnt * 100;
    assert PercentileIndex(cnt, 100) == cnt - 1;
    AggregatePercentile(samples, aggregations, "p100");
    SortSeqEnds(samples);
  }

  /** A percentile whose index would be -1 (cnt*N < 100) makes getAggregation panic. */
  lemma PercentileUnderflow(samples: seq<int>, aggregations: seq<string>, id: string)
    requires |samples| > 0 && id in aggregations && |id| > 0 && id[0] == 'p'
    requires ParseInt(id[1..]).ok && 0 <= ParseInt(id[1..]).value
    requires |samples| * ParseInt(id[1..]).value < 100
    ensures Aggregate(samples, aggregations).Failure?
  {
    PercentileIndexBounds(|samples|, ParseInt(id[1..]).value);
    AggregateSucceeds(samples, aggregations);
    var i :| 0 <= i < |aggregations| && aggregations[i] == id;
  }

  // ---------------------------------------------------------------------
  // The average.

  lemma {:induction false} SumBounds(s: seq<int>, lo: int, hi: int)
    requires forall x :: x in s ==> lo <= x <= hi
    ensures |s| * lo <= Sum(s) <= |s| * hi
  {
    if s != [] {
      var init := s[..|s| - 1];
      assert forall x :: x in init ==> x in s;
      assert s[|s| - 1] in s;
      SumBounds(init, lo, hi);
      assert |s| * lo == |init| * lo + lo && |s| * hi == |init| * hi + hi;
    }
  }

  lemma DivBetween(total: int, cnt: int, lo: int, hi: int)
    requires cnt > 0 && cnt * lo <= total <= cnt * hi
    ensures lo <= TruncDiv(total, cnt) <= hi
  {
    var q := TruncDiv(total, cnt);
    var rem := total - q * cnt;
    if q > hi {
      MulNonneg(q - hi - 1, cnt);
    }
    if q < lo {
      MulNonneg(lo - q - 1, cnt);
    }
  }

  /**
    When the sum does not wrap, "avg" lies between the smallest and the
    largest sample.
  */
  lemma AverageBounds(samples: seq<int>)
    requires |samples| > 0 && InRange(Sum(samples))
    ensures var avg := TruncDiv(Wrap(Sum(samples)), |samples|);
      (exists x :: x in samples && x <= avg) && (exists y :: y in samples && avg <= y)
  {
    var sorted := SortSeq(samples);
    SortSeqEnds(samples);
    var lo, hi := sorted[0], sorted[|sorted| - 1];
    SumBounds(samples, lo, hi);
    DivBetween(Sum(samples), |samples|, lo, hi);
    var avg := TruncDiv(Wrap(Sum(samples)), |samples|);
    assert lo in samples && lo <= avg;
    assert hi in samples && avg <= hi;
  }

  /** The ends of the sorted samples are the smallest and the largest sample. */
  lemma SortSeqEnds(samples: seq<int>)
    requires |samples| > 0
    ensures var sorted := SortSeq(samples);
      && sorted[0] in samples && sorted[|sorted| - 1] in samples
      && forall x :: x in samples ==> sorted[0] <= x <= sorted[|sorted| - 1]
  {
    var sorted := SortSeq(samples);
    SortSeqSorted(samples);
    assert sorted[0] in multiset(sorted) && sorted[|sorted| - 1] in multiset(sorted);
    forall x | x in samples
      ensures sorted[0] <= x <= sorted[|sorted| - 1]
    {
      assert x in multiset(sorted);
      var i :| 0 <= i < |sorted| && sorted[i] == x;
    }
  }

  // ---------------------------------------------------------------------
  // Worked examples.

  /** Sorting leaves a sorted list as it is. */
  lemma SortSeqOfSorted(s: seq<int>)
    requires Sorted(s)
    ensures SortSeq(s) == s
  {
    SortSeqSorted(s);
    SortedUnique(SortSeq(s), s);
  }

  /** Samples [1, 2, 4]: the average 7 / 3 is truncated to 2. */
  lemma AverageTruncates(samples: seq<int>)
    requires samples == [1, 2, 4]
    ensures Aggregate(samples, ["cnt", "avg"]) == Success(map["cnt" := 3, "avg" := 2])
  {
    assert SortSeq(samples) == samples by { SortSeqOfSorted(samples); }
    assert Fill(samples, Average(samples), ["cnt", "avg"]) == Success(map["cnt" := 3, "avg" := 2]) by {
      assert Average(samples) == 2 by {
        assert Sum(samples) == 7 by {
          assert samples[..2] == [1, 2] && [1, 2][..1] == [1] && [1][..0] == [];
        }
        assert Wrap(7) == 7;
        assert TruncDiv(7, 3) == 2;
      }
      var ids := ["cnt", "avg"];
      assert ids[..1] == ["cnt"] && ids[..1][..0] == [];
      assert Fill(samples, 2, ids[..1]) == Success(map["cnt" := 3]);
    }
  }

  /** Samples [10, 20, 30, 40, 50]: "p50" is at index 5*50/100 - 1 = 1. */
  lemma MedianOfFive(samples: seq<int>)
    requires samples == [10, 20, 30, 40, 50]
    ensures Aggregate(samples, ["p50"]) == Success(map["p50" := 20])
  {
    assert SortSeq(samples) == samples by { SortSeqOfSorted(samples); }
    assert Fill(samples, Average(samples), ["p50"]) == Success(map["p50" := 20]) by {
      assert Stat(samples, Average(samples), "p50") == Value(20) by {
        Parse50();
        assert PercentileIndex(5, 50) == 1 by {
          assert Wrap(250) == 250;
          assert TruncDiv(250, 100) == 2;
        }
      }
      assert ["p50"][..0] == [];
    }
  }

  /** A single sample has no "p50": the index 1*50/100 - 1 is -1 and the source panics. */
  lemma MedianOfOnePanics(x: int)
    ensures Aggregate([x], ["p50"]) == Failure(PercentileOutOfRange("p50"))
  {
    assert SortSeq([x]) == [x] by { SortSeqOfSorted([x]); }
    var avg := Average([x]);
    assert Fill([x], avg, ["p50"]) == Failure(PercentileOutOfRange("p50")) by {
      assert Stat([x], avg, "p50") == Panic(PercentileOutOfRange("p50")) by {
        Parse50();
        assert PercentileIndex(1, 50) == -1 by {
          assert Wrap(50) == 50;
          assert TruncDiv(50, 100) == 0;
        }
      }
      assert ["p50"][..0] == [];
    }
  }

  lemma Parse50()
    ensures "p50"[1..] == "50" && ParseInt("50") == Conversion(50, true)
  {
    assert Digits(50) == "50" by {
      assert Digits(5) == [DigitChar(5)];
    }
    ParseSmall("50", 50);
  }
}
