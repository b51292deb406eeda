/**
 Selection and extraction (main.go, the body of the per-sample loop in write()):
 a sample is kept only when the text of its label set contains "simba_metric",
 the `date_time` and `column_name` labels read back through `MetricResult` are
 both non-empty, and its value is strictly positive. A kept sample becomes the
 triple handed to the insert, its value rendered as fixed-point text.
 */
module Selection {
  import opened Wrappers
  import opened Labels
  import opened Samples
  import opened Store

  /** The text that marks a sample as part of the tracked metric family. */
  const Family: string := "simba_metric"

  /** The JSON keys of `MetricResult`'s two fields. */
  const DateTimeKey: string := "date_time"
  const ColumnNameKey: string := "column_name"

  /**
   The library pieces the gate uses, kept abstract: `render` stands for
   `model.Metric.String()` and `format` for `fmt.Sprintf("%f", v)`.
   */
  datatype Codecs = Codecs(render: LabelSet -> string, format: real -> string)

  /** `sub` occurs in `s` starting at position `i`. */
  ghost predicate OccursAt(s: string, sub: string, i: int) {
    0 <= i && i + |sub| <= |s| && s[i..i + |sub|] == sub
  }

  /** `strings.Contains`: does `sub` occur in `s`? Searches from the left. */
  function Contains(s: string, sub: string): bool
    decreases |s|
  {
    if |sub| <= |s| && s[..|sub|] == sub then true
    else if |s| == 0 then false
    else Contains(s[1..], sub)
  }

  /** The search finds `sub` exactly when it occurs at some position of `s`. */
  lemma {:induction false} ContainsIff(s: string, sub: string)
    ensures Contains(s, sub) <==> exists i :: OccursAt(s, sub, i)
    decreases |s|
  {
    if |sub| <= |s| && s[..|sub|] == sub {
      assert OccursAt(s, sub, 0);
    } else if |s| == 0 {
      assert forall i :: !OccursAt(s, sub, i);
    } else {
      ContainsIff(s[1..], sub);
      if Contains(s[1..], sub) {
        var i :| OccursAt(s[1..], sub, i);
        assert s[1..][i..i + |sub|] == s[i + 1..i + 1 + |sub|];
        assert OccursAt(s, sub, i + 1);
      } else {
        forall i | OccursAt(s, sub, i) ensures i >= 1 && OccursAt(s[1..], sub, i - 1) {
          if i >= 1 {
            assert s[1..][i - 1..i - 1 + |sub|] == s[i..i + |sub|];
          }
        }
      }
    }
  }

  /** The two fields read back from the label set's JSON form (`MetricResult`). */
  datatype MetricResult = MetricResult(columnName: string, dateTime: string)

  /**
   `json.Marshal` of the label set followed by `json.Unmarshal` into
   `MetricResult`: each field takes the label of its key, or "" when absent.
   */
  function ReadBack(m: LabelSet): (mr: MetricResult)
    ensures mr.dateTime != "" ==> DateTimeKey in m && m[DateTimeKey] == mr.dateTime
    ensures mr.columnName != "" ==> ColumnNameKey in m && m[ColumnNameKey] == mr.columnName
    ensures DateTimeKey in m ==> mr.dateTime == m[DateTimeKey]
    ensures ColumnNameKey in m ==> mr.columnName == m[ColumnNameKey]
  {
    MetricResult(Get(m, ColumnNameKey), Get(m, DateTimeKey))
  }

  /**
   The acceptance gate: the rendered label set contains the family text, both
   fields are present and non-empty, and the value is strictly positive.
   */
  ghost predicate Accepted(c: Codecs, s: Sample) {
    && (exists i :: OccursAt(c.render(s.metric), Family, i))
    && DateTimeKey in s.metric && s.metric[DateTimeKey] != ""
    && ColumnNameKey in s.metric && s.metric[ColumnNameKey] != ""
    && s.value > 0.0
  }

  /**
   One pass of the loop body: the triple handed to the insert, or None when the
   sample is dropped. A triple is produced exactly for the accepted samples, and
   it is (date_time, column_name, formatted value).
   */
  function Select(c: Codecs, s: Sample): (r: Option<Row>)
    ensures r.Some? <==> Accepted(c, s)
    ensures r.Some? ==> r.value == Row(s.metric[DateTimeKey], s.metric[ColumnNameKey], c.format(s.value))
  {
    ContainsIff(c.render(s.metric), Family);
    if Contains(c.render(s.metric), Family) then
      var mr := ReadBack(s.metric);
      if |mr.dateTime| > 0 && |mr.columnName| > 0 && s.value > 0.0 then
        Some(Row(mr.dateTime, mr.columnName, c.format(s.value)))
      else
        None
    else
      None
  }

  /** A value of zero or below is never stored, whatever the labels say. */
  lemma NonPositiveDropped(c: Codecs, s: Sample)
    requires s.value <= 0.0
    ensures Select(c, s) == None
  {
  }

  /** A missing or empty date_time or column_name label drops the sample. */
  lemma MissingFieldDropped(c: Codecs, s: Sample)
    requires Get(s.metric, DateTimeKey) == "" || Get(s.metric, ColumnNameKey) == ""
    ensures Select(c, s) == None
  {
  }
}
