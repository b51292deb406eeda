/**
 The write handler (main.go, write()): decode the body, flatten the request,
 and run every sample through the gate, inserting each kept triple with the
 duplicate-safe insert. The table is threaded through the loop as a value.
 */
module Pipeline {
  import opened Wrappers
  import opened Labels
  import opened Samples
  import opened Store
  import opened Selection

  /** A byte of the request body. */
  newtype byte = b: int | 0 <= b < 256

  /**
   The wire decoders, kept abstract: `decompress` stands for `snappy.Decode`
   and `unmarshal` for `proto.Unmarshal` into a `prompb.WriteRequest`; each
   fails with the error text the handler sends back.
   */
  datatype Decoder = Decoder(
    decompress: seq<byte> -> Result<seq<byte>, string>,
    unmarshal: seq<byte> -> Result<WriteRequest, string>)

  /**
   The handler's answer: 200 with an empty body, or 400 whose body is the
   decoder's error text followed by a newline (`http.Error`); `text` holds
   the error text without that newline.
   */
  datatype Response = Ok | BadRequest(text: string)

  /** The effect of one sample on the table. */
  function Step(c: Codecs, t: Table, s: Sample): Table {
    match Select(c, s)
    case Some(r) => Insert(t, r)
    case None => t
  }

  /** The table after the loop has run over `samples` in order. */
  function Ingest(c: Codecs, t: Table, samples: seq<Sample>): (t': Table)
    ensures t.rows <= t'.rows
  {
    if |samples| == 0 then t
    else Step(c, Ingest(c, t, samples[..|samples| - 1]), samples[|samples| - 1])
  }

  /** The triples the gate lets through for some sample of `samples`. */
  ghost function AcceptedRows(c: Codecs, samples: seq<Sample>): set<Row> {
    set j | 0 <= j < |samples| && Select(c, samples[j]).Some? :: Select(c, samples[j]).value
  }

  /** Dropping the last sample drops its triple, if any, from the accepted ones. */
  lemma AcceptedRowsSnoc(c: Codecs, samples: seq<Sample>)
    requires |samples| > 0
    ensures var n := |samples|;
      AcceptedRows(c, samples) ==
        AcceptedRows(c, samples[..n - 1]) +
        (if Select(c, samples[n - 1]).Some? then {Select(c, samples[n - 1]).value} else {})
  {
  }

  /**
   After a request the table holds exactly the triples it held before plus the
   triples of the accepted samples: a dropped sample leaves no trace.
   */
  lemma {:induction false} IngestContents(c: Codecs, t: Table, samples: seq<Sample>, x: Row)
    ensures Has(Ingest(c, t, samples), x) <==> Has(t, x) || x in AcceptedRows(c, samples)
  {
    if |samples| > 0 {
      IngestContents(c, t, samples[..|samples| - 1], x);
      AcceptedRowsSnoc(c, samples);
    }
  }

  /** A whole request's inserts keep the table free of duplicate triples. */
  lemma {:induction false} IngestKeepsNoDuplicates(c: Codecs, t: Table, samples: seq<Sample>)
    requires NoDuplicates(t)
    ensures NoDuplicates(Ingest(c, t, samples))
  {
    if |samples| > 0 {
      var front := samples[..|samples| - 1];
      IngestKeepsNoDuplicates(c, t, front);
      var r := Select(c, samples[|samples| - 1]);
      if r.Some? {
        InsertKeepsNoDuplicates(Ingest(c, t, front), r.value);
      }
    }
  }

  /** A whole request's inserts keep the id column a valid primary key. */
  lemma {:induction false} IngestKeepsIdsValid(c: Codecs, t: Table, samples: seq<Sample>)
    requires IdsValid(t)
    ensures IdsValid(Ingest(c, t, samples))
  {
    if |samples| > 0 {
      var front := samples[..|samples| - 1];
      IngestKeepsIdsValid(c, t, front);
      var r := Select(c, samples[|samples| - 1]);
      if r.Some? {
        InsertKeepsIdsValid(Ingest(c, t, front), r.value);
      }
    }
  }

  /** A request whose accepted triples are all present already changes nothing. */
  lemma {:induction false} IngestNoop(c: Codecs, t: Table, samples: seq<Sample>)
    requires forall x :: x in AcceptedRows(c, samples) ==> Has(t, x)
    ensures Ingest(c, t, samples) == t
  {
    if |samples| > 0 {
      AcceptedRowsSnoc(c, samples);
      IngestNoop(c, t, samples[..|samples| - 1]);
    }
  }

  /**
   Replaying a request on the table it produced changes nothing: submitting
   the same payload twice, one after the other, stores what submitting it once does.
   */
  lemma IngestIdempotent(c: Codecs, t: Table, samples: seq<Sample>)
    ensures Ingest(c, Ingest(c, t, samples), samples) == Ingest(c, t, samples)
  {
    var t' := Ingest(c, t, samples);
    forall x | x in AcceptedRows(c, samples) ensures Has(t', x) {
      IngestContents(c, t, samples, x);
    }
    IngestNoop(c, t', samples);
  }

  /**
   Starting from a table without duplicates, every accepted triple of a request
   ends up in exactly one row.
   */
  lemma IngestStoresOnce(c: Codecs, t: Table, samples: seq<Sample>, x: Row)
    requires NoDuplicates(t) && x in AcceptedRows(c, samples)
    ensures Count(Ingest(c, t, samples), x) == 1
  {
    IngestContents(c, t, samples, x);
    IngestKeepsNoDuplicates(c, t, samples);
    CountOne(Ingest(c, t, samples), x);
  }

  /**
   The loop of the handler over the flattened samples: test the family text,
   read the two fields back, check the gate, insert. The table it leaves is the
   one the samples lead to, it only grows, and it holds no new triple that
   was not accepted.
   */
  method Write(c: Codecs, t: Table, req: WriteRequest) returns (t': Table)
    ensures t' == Ingest(c, t, Flatten(req.timeseries))
    ensures t.rows <= t'.rows
    ensures NoDuplicates(t) ==> NoDuplicates(t')
  {
    var samples := ProtoToSamples(req);
    t' := t;
    var i := 0;
    while i < |samples|
      invariant 0 <= i <= |samples|
      invariant t' == Ingest(c, t, samples[..i])
    {
      var s := samples[i];
      if Contains(c.render(s.metric), Family) {
        var mr := ReadBack(s.metric);
        if |mr.dateTime| > 0 && |mr.columnName| > 0 && s.value > 0.0 {
          t' := Insert(t', Row(mr.dateTime, mr.columnName, c.format(s.value)));
        }
      }
      assert samples[..i + 1][..i] == samples[..i];
      i := i + 1;
    }
    assert samples[..i] == samples;
    if NoDuplicates(t) {
      IngestKeepsNoDuplicates(c, t, samples);
    }
  }

  /**
   The whole handler: a body that fails to decompress or to unmarshal gets a
   400 with the decoder's error text and touches no row; a decoded request
   gets a 200 and its accepted samples inserted.
   */
  method HandleWrite(c: Codecs, d: Decoder, body: seq<byte>, t: Table) returns (resp: Response, t': Table)
    ensures d.decompress(body).Failure? ==> resp == BadRequest(d.decompress(body).error) && t' == t
    ensures d.decompress(body).Success? && d.unmarshal(d.decompress(body).value).Failure? ==>
      resp == BadRequest(d.unmarshal(d.decompress(body).value).error) && t' == t
    ensures d.decompress(body).Success? && d.unmarshal(d.decompress(body).value).Success? ==>
      resp == Ok && t' == Ingest(c, t, Flatten(d.unmarshal(d.decompress(body).value).value.timeseries))
  {
    var reqBuf := d.decompress(body);
    if reqBuf.Failure? {
      return BadRequest(reqBuf.error), t;
    }
    var req := d.unmarshal(reqBuf.value);
    if req.Failure? {
      return BadRequest(req.error), t;
    }
    t' := Write(c, t, req.value);
    resp := Ok;
  }

  /** The labels of the worked example: the family name, a date and a column. */
  function ExampleLabels(): seq<Label> {
    [Label("__name__", "simba_metric_x"), Label("date_time", "2024-01-01"), Label("column_name", "cpu")]
  }

  /**
   One series with the example labels and one point of value 42 produces the
   row ("2024-01-01", "cpu", "42.000000") exactly once, and resubmitting it
   changes nothing, provided the rendered label set shows the metric name and
   the formatter prints 42 as "42.000000".
   */
  lemma Example(c: Codecs, t: Table, timestamp: int)
    requires Contains(c.render(MetricOf(ExampleLabels())), Family)
    requires c.format(42.0) == "42.000000"
    requires NoDuplicates(t)
    ensures var samples := Flatten([TimeSeries(ExampleLabels(), [Point(42.0, timestamp)])]);
      && Count(Ingest(c, t, samples), Row("2024-01-01", "cpu", "42.000000")) == 1
      && Ingest(c, Ingest(c, t, samples), samples) == Ingest(c, t, samples)
  {
    var series := [TimeSeries(ExampleLabels(), [Point(42.0, timestamp)])];
    var samples := Flatten(series);
    FlattenAt(series, 0, 0);
    assert series[..0] == [];
    var m := MetricOf(ExampleLabels());
    assert m[DateTimeKey] == "2024-01-01" && m[ColumnNameKey] == "cpu";
    ContainsIff(c.render(m), Family);
    assert Select(c, samples[0]) == Some(Row("2024-01-01", "cpu", "42.000000"));
    IngestStoresOnce(c, t, samples, Row("2024-01-01", "cpu", "42.000000"));
    IngestIdempotent(c, t, samples);
  }
}
