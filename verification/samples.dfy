/**
 Sample flattening (main.go, protoToSamples): a write request is a list of time
 series, each a label list plus a list of points; flattening emits one sample
 per point, series by series and point by point, each sample carrying its
 series' label set and its point's value and timestamp unchanged.
 */
module Samples {
  import opened Labels

  /** One observation of a series: a value (a float64 in `prompb.Sample`) and a timestamp in ms. */
  datatype Point = Point(value: real, timestamp: int)

  /** A time series as decoded from the wire: ordered labels and ordered points. */
  datatype TimeSeries = TimeSeries(labels: seq<Label>, points: seq<Point>)

  /** A decoded remote-write request. */
  datatype WriteRequest = WriteRequest(timeseries: seq<TimeSeries>)

  /** One flattened observation (`model.Sample`). */
  datatype Sample = Sample(metric: LabelSet, value: real, timestamp: int)

  /** The sample that point `k` of `ts` becomes. */
  function SampleOf(ts: TimeSeries, k: nat): Sample
    requires k < |ts.points|
  {
    Sample(MetricOf(ts.labels), ts.points[k].value, ts.points[k].timestamp)
  }

  /** The samples of one series, in point order. */
  function SeriesSamples(ts: TimeSeries): seq<Sample> {
    seq(|ts.points|, k requires 0 <= k < |ts.points| => SampleOf(ts, k))
  }

  /** The number of points over all series. */
  function TotalPoints(series: seq<TimeSeries>): nat {
    if |series| == 0 then 0
    else TotalPoints(series[..|series| - 1]) + |series[|series| - 1].points|
  }

  /** Where the samples of series `i` start in the flattened sequence. */
  function Offset(series: seq<TimeSeries>, i: nat): nat
    requires i <= |series|
  {
    TotalPoints(series[..i])
  }

  /** The flattened samples of a request: as many as there are points in all. */
  function Flatten(series: seq<TimeSeries>): (r: seq<Sample>)
    ensures |r| == TotalPoints(series)
  {
    if |series| == 0 then []
    else Flatten(series[..|series| - 1]) + SeriesSamples(series[|series| - 1])
  }

  /**
   Point `k` of series `i` lands at position Offset(series, i) + k, carrying the
   series' label set and the point's value and timestamp. Every sample of one
   series therefore carries the same label set.
   */
  lemma {:induction false} FlattenAt(series: seq<TimeSeries>, i: nat, k: nat)
    requires i < |series| && k < |series[i].points|
    ensures Offset(series, i) + k < |Flatten(series)|
    ensures Flatten(series)[Offset(series, i) + k] == SampleOf(series[i], k)
  {
    var n := |series|;
    var front := series[..n - 1];
    if i == n - 1 {
      assert series[..i] == front;
      FlattenLast(series, k);
    } else {
      FlattenAt(front, i, k);
      assert front[..i] == series[..i];
      assert front[i] == series[i];
      FlattenFront(series, Offset(front, i) + k);
    }
  }

  /** The last series' samples follow those of the series before it. */
  lemma FlattenLast(series: seq<TimeSeries>, k: nat)
    requires |series| > 0 && k < |series[|series| - 1].points|
    ensures TotalPoints(series[..|series| - 1]) + k < |Flatten(series)|
    ensures Flatten(series)[TotalPoints(series[..|series| - 1]) + k] == SampleOf(series[|series| - 1], k)
  {
    var front := series[..|series| - 1];
    assert Flatten(series) == Flatten(front) + SeriesSamples(series[|series| - 1]);
  }

  /** Appending a series leaves the samples before it in place. */
  lemma FlattenFront(series: seq<TimeSeries>, j: nat)
    requires |series| > 0 && j < TotalPoints(series[..|series| - 1])
    ensures j < |Flatten(series)|
    ensures Flatten(series)[j] == Flatten(series[..|series| - 1])[j]
  {
    var front := series[..|series| - 1];
    assert Flatten(series) == Flatten(front) + SeriesSamples(series[|series| - 1]);
  }

  /** The samples of series i all precede those of any later series j. */
  lemma {:induction false} OffsetMonotone(series: seq<TimeSeries>, i: nat, j: nat)
    requires i < j <= |series|
    ensures Offset(series, i) + |series[i].points| <= Offset(series, j)
  {
    if j == i + 1 {
      assert series[..j][..i] == series[..i];
    } else {
      OffsetMonotone(series, i, j - 1);
      assert series[..j][..j - 1] == series[..j - 1];
    }
  }

  /**
   Series-then-point order: point k of series i comes after every sample of the
   series before it and after points 0..k-1 of its own series.
   */
  lemma FlattenOrder(series: seq<TimeSeries>, i: nat, k: nat, i': nat, k': nat)
    requires i < |series| && k < |series[i].points|
    requires i' < |series| && k' < |series[i'].points|
    requires i' < i || (i' == i && k' < k)
    ensures Offset(series, i') + k' < Offset(series, i) + k
  {
    if i' < i {
      OffsetMonotone(series, i', i);
    }
  }

  /**
   The series and point that position j of the flattened sequence comes from:
   every sample is the image of exactly such a pair.
   */
  function Locate(series: seq<TimeSeries>, j: nat): (p: (nat, nat))
    requires j < TotalPoints(series)
    ensures p.0 < |series| && p.1 < |series[p.0].points|
    ensures Offset(series, p.0) + p.1 == j
  {
    var n := |series|;
    var front := series[..n - 1];
    if j >= TotalPoints(front) then
      assert series[..n - 1] == front;
      (n - 1, j - TotalPoints(front))
    else
      var p := Locate(front, j);
      assert front[..p.0] == series[..p.0];
      p
  }

  /** Flattening emits nothing but samples of the request's points. */
  lemma FlattenOnly(series: seq<TimeSeries>, j: nat)
    requires j < |Flatten(series)|
    ensures Locate(series, j).0 < |series|
    ensures var p := Locate(series, j); Flatten(series)[j] == SampleOf(series[p.0], p.1)
  {
  }

  /** A request with no series, or only series without points, yields no sample. */
  lemma {:induction false} FlattenEmpty(series: seq<TimeSeries>)
    requires forall i :: 0 <= i < |series| ==> |series[i].points| == 0
    ensures Flatten(series) == []
  {
    if |series| > 0 {
      FlattenEmpty(series[..|series| - 1]);
    }
  }

  /**
   The flattening loop of the adapter: for each series build its label set once,
   then append one sample per point. It produces exactly the flattened samples.
   */
  method ProtoToSamples(req: WriteRequest) returns (samples: seq<Sample>)
    ensures |samples| == TotalPoints(req.timeseries)
    ensures samples == Flatten(req.timeseries)
  {
    var all := req.timeseries;
    samples := [];
    var i := 0;
    while i < |all|
      invariant 0 <= i <= |all|
      invariant samples == Flatten(all[..i])
    {
      var ts := all[i];
      var metric := MakeMetric(ts.labels);
      var k := 0;
      while k < |ts.points|
        invariant 0 <= k <= |ts.points|
        invariant samples == Flatten(all[..i]) + SeriesSamples(ts)[..k]
      {
        samples := samples + [Sample(metric, ts.points[k].value, ts.points[k].timestamp)];
        k := k + 1;
      }
      assert SeriesSamples(ts)[..k] == SeriesSamples(ts);
      assert all[..i + 1][..i] == all[..i];
      i := i + 1;
    }
    assert all[..i] == all;
  }
}
