# Remote-write to MySQL bridge: a Dafny model of the ingestion pipeline

This project models the core of a small Prometheus remote-write adapter that
persists one metric family into a MySQL table. A push arrives as a
snappy-compressed protobuf `WriteRequest`. The adapter
decodes it and flattens its time series into samples (`protoToSamples`). It
keeps only the samples whose rendered label set contains `simba_metric`, whose
`date_time` and `column_name` labels are non-empty, and whose value is strictly
positive. Each kept sample becomes a `(date_time, column_name, "%f" value)` triple. The
triple goes to a "not exists" insert, which adds it to the `monitoring` table only
when no row already holds it.

Modules (one file each):

- `Labels` (labels.dfy): a series' label list folded into a label map, last pair wins.
- `Samples` (samples.dfy): the request, series, points and samples, and the flattening.
- `Store` (store.dfy): the `monitoring` table as a value (rows plus the next auto-increment id) and the duplicate-safe insert.
- `Selection` (selection.dfy): `strings.Contains`, the `MetricResult` read-back and the acceptance gate.
- `Pipeline` (pipeline.dfy): the handler loop over all samples, the decode failures, and whole-request properties.
- `NumericColumn` (numeric_column.dfy): the BIGINT value column of the real schema, for the finding below.
- `Wrappers` (wrappers.dfy): `Option` and `Result`.

Library calls are parameters and not definitions. A `Codecs` value carries
`render` (for `model.Metric.String()`) and `format` (for `fmt.Sprintf("%f", v)`).
A `Decoder` value carries `decompress` (for `snappy.Decode`) and `unmarshal`
(for `proto.Unmarshal`). Every property holds for all such functions.
Sample values are reals. Timestamps are unbounded integers.

## Model

| member | source | states |
|---|---|---|
| Labels.MetricOfKeys | main.go:193-196 | the label map of a series holds exactly the names occurring in its label list |
| Labels.MetricOfLastWins | main.go:193-196 | for a repeated name, the label map holds the value of its last occurrence |
| Labels.MakeMetric | main.go:193-196 | the pair-by-pair loop that fills the map builds exactly the label map `MetricOf` defines, the one the two lemmas above describe |
| Labels.GetLastWins | main.go:173-175 | reading a name back from a series' label set gives the value of the last pair carrying that name |
| Labels.GetAbsent | main.go:173-175 | a name no pair carries reads back as the empty string |
| Samples.Flatten | main.go:189-209 | the flattened request has exactly as many samples as the series have points in total |
| Samples.FlattenAt | main.go:198-205 | point k of series i sits at position Offset(i)+k and carries its series' label set and the point's value and timestamp unchanged, so all samples of a series share one label set |
| Samples.OffsetMonotone | main.go:191 | the block of samples of series i ends before the block of any later series begins |
| Samples.FlattenOrder | main.go:191-205 | series-then-point order: point k of series i comes after every sample of earlier series and after points 0..k-1 of its own series |
| Samples.Locate | main.go:189-209 | every position of the flattened sequence is Offset(i)+k for some series i and point k of it |
| Samples.FlattenOnly | main.go:198-205 | every flattened sample is the sample of the series and point that Locate gives for its position; nothing else is emitted |
| Samples.FlattenEmpty | main.go:189-209 | a request with no series, or whose series have no points, yields no sample |
| Samples.ProtoToSamples | main.go:189-209 | the nested loops return exactly the flattened samples, as many as there are points |
| Store.Insert | main.go:127-141 | the not-exists insert: a table already holding the triple is unchanged; otherwise exactly one row with the triple is appended and every existing row stays as it was; afterwards the table holds the triple and no other new one |
| Store.InsertIdempotent | main.go:129-136 | inserting the same triple twice in sequence gives the same table as inserting it once |
| Store.InsertKeepsNoDuplicates | main.go:129 | if no two rows share a triple before an insert, none do after it |
| Store.InsertKeepsIdsValid | main.go:113 | the auto-increment id stays a valid primary key: strictly increasing ids below the next id |
| Store.CountOne | main.go:129 | in a table without duplicates a present triple is held by exactly one row |
| Selection.ContainsIff | main.go:172 | the substring search succeeds exactly when the text occurs at some position |
| Selection.ReadBack | main.go:98-101 | the JSON read-back gives each `MetricResult` field the label of its key when present and the empty string when absent |
| Selection.Select | main.go:172-180 | a triple is produced exactly when the rendered label set contains `simba_metric`, both fields are present and non-empty and the value is above zero, and it is (date_time, column_name, formatted value) |
| Selection.NonPositiveDropped | main.go:176-180 | a sample with value zero or below is dropped whatever its labels |
| Selection.MissingFieldDropped | main.go:176-180 | a sample with a missing or empty date_time or column_name label is dropped |
| Pipeline.Ingest | main.go:170-184 | the loop over a request never removes or changes a row: the old rows stay a prefix |
| Pipeline.IngestContents | main.go:170-184 | after a request the table holds exactly its earlier triples plus the triples of the accepted samples |
| Pipeline.IngestKeepsNoDuplicates | main.go:170-184 | a whole request's inserts keep the table free of duplicate triples |
| Pipeline.IngestKeepsIdsValid | main.go:170-184 | a whole request's inserts keep the ids a valid primary key |
| Pipeline.IngestNoop | main.go:170-184 | a request whose accepted triples are all present already leaves the table unchanged |
| Pipeline.IngestIdempotent | main.go:170-184 | submitting the same request twice in sequence stores what submitting it once does |
| Pipeline.IngestStoresOnce | main.go:170-184 | from a table without duplicates, each accepted triple of a request ends up in exactly one row |
| Pipeline.Write | main.go:168-184 | the handler's loop (family test, read-back, gate, insert) leaves the table the samples lead to, only grows it, and keeps it free of duplicates |
| Pipeline.HandleWrite | main.go:153-184 | a body failing decompression or unmarshalling gets a 400 with the error text and changes no row; a decoded body gets a 200 and its accepted samples inserted |
| Pipeline.Example | main.go:170-177 | one series labelled `simba_metric_x`, `2024-01-01`, `cpu` with the point 42 stores ("2024-01-01", "cpu", "42.000000") in exactly one row, and resubmitting changes nothing |
| NumericColumn.InsertAsWritten | main.go:113-136 | the insert against the BIGINT value column appends one row exactly when the numeric not-exists test finds no equal row, and never changes existing rows |
| NumericColumn.FractionalValueDuplicates | main.go:113-136 | with the BIGINT column, a value whose `%f` text has a non-zero fractional part is never found again, so inserting the same triple twice stores two rows |
| NumericColumn.FortyTwoAndAHalf | main.go:113-136 | the value 42.5 inserted twice into an empty table leaves two rows |

## Left out

- Process bootstrap (`main`, `parseFlags`, `config`), the `timeHandler` wrapper and the metrics endpoint: configuration and HTTP plumbing that forwards the call.
- `dbConn` and `createTable`: connection set-up and DDL. The table is modelled as a value. The only parts of the schema kept are the auto-increment id (the model starts from any table) and, in `NumericColumn`, the BIGINT value column.
- The `panic` paths of `insert` and `createTable`. A failed `createTable` statement runs at start-up and ends the process. A failed `insert` statement panics inside the HTTP handler; the HTTP server recovers it, logs it and closes the connection, so only that request ends. A pure model expresses neither.
- Pipeline.HandleWrite: a failed insert cuts the request short without a response. The inserts of the request's earlier samples persist and its later samples are skipped, so a request is not all-or-nothing. The model assumes every insert statement succeeds.
- Pipeline.HandleWrite: `http.Error` writes the error text followed by a newline and sets a text/plain content type. The model's 400 response carries only the error text.
- Reading the request body and its 500 response: this is I/O.
- `snappy.Decode` and `proto.Unmarshal` are opaque parameters. Only their failure outcome (400, no insert) and success outcome are modelled.
- `model.Metric.String()` is an opaque `render` parameter. Its exact text (sorted, quoted labels) is not modelled. The worked example therefore assumes that the rendered text contains the family name.
- Selection.ReadBack: a plain lookup that defaults to "". Go's `json.Unmarshal` also matches keys case-insensitively (a label `DATE_TIME` could fill the field), and `json.Marshal` replaces invalid UTF-8. Neither is modelled.
- `fmt.Sprintf("%f", v)` is an opaque `format` parameter. Float64 values are reals, so NaN (which fails `> 0`) and the infinities are not modelled.
- The informational log line for dropped samples is not modelled: it is logging.
- Store.Insert: rows are compared as exact string triples. The SQL text is built by unescaped concatenation (a quote in a label breaks the statement). MySQL coerces values into `date` and `BIGINT` columns under a case-insensitive collation. None of this is modelled, apart from the BIGINT finding below.
- The check-then-insert race between concurrent requests: the model is sequential, and its no-duplicates guarantee covers sequential writers only.

## Findings

| source | as written | input that shows it | evidently intended | confidence | as-written member | corrected member |
|---|---|---|---|---|---|---|
| main.go:113-136 | `value` is a BIGINT column. The insert sends the `"%f"` text of a float and tests `value = ?` against that text, so the database stores an integer and compares numerically | a sample with value 42.5 submitted twice: no stored integer equals 42.5, the not-exists test passes both times, and two rows are stored. A sample of 7.0000001 is sent as "7.000000" and is found again, so the input must be a value whose `%f` text has a non-zero fractional part | replaying a payload stores each triple once, as the not-exists clause is meant to ensure | medium, not executed; relies on MySQL converting the text to a number for the BIGINT column | NumericColumn.FractionalValueDuplicates | Store.InsertIdempotent |
