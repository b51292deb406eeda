/**
 Label sets. A write request carries each series' labels as an ordered list of
 (name, value) pairs; the adapter folds that list into a `model.Metric`, a map
 from label name to label value, writing the pairs in order so that a later
 pair with a repeated name overwrites an earlier one (main.go, protoToSamples).
 */
module Labels {

  /** One (name, value) label pair as it arrives in a time series. */
  datatype Label = Label(name: string, value: string)

  /** A resolved label set (`model.Metric`): each name at most once. */
  type LabelSet = map<string, string>

  /** The names that occur somewhere in a label list. */
  function Names(labels: seq<Label>): set<string> {
    set i | 0 <= i < |labels| :: labels[i].name
  }

  /** Position `i` holds the last occurrence of its name in `labels`. */
  ghost predicate IsLast(labels: seq<Label>, i: int) {
    && 0 <= i < |labels|
    && forall j :: i < j < |labels| ==> labels[j].name != labels[i].name
  }

  /** The label set of a series: the pairs written into an empty map in list order. */
  function MetricOf(labels: seq<Label>): LabelSet {
    if |labels| == 0 then map[]
    else
      var last := labels[|labels| - 1];
      MetricOf(labels[..|labels| - 1])[last.name := last.value]
  }

  /** The label set of a series holds exactly the names of its label list. */
  lemma {:induction false} MetricOfKeys(labels: seq<Label>)
    ensures MetricOf(labels).Keys == Names(labels)
  {
    if |labels| > 0 {
      var front := labels[..|labels| - 1];
      var last := labels[|labels| - 1];
      MetricOfKeys(front);
      assert labels == front + [last];
      NamesSnoc(front, last);
    }
  }

  /** Each name of a series' label set maps to the value of its last occurrence. */
  lemma {:induction false} MetricOfLastWins(labels: seq<Label>, i: int)
    requires IsLast(labels, i)
    ensures labels[i].name in MetricOf(labels)
    ensures MetricOf(labels)[labels[i].name] == labels[i].value
  {
    var front := labels[..|labels| - 1];
    var last := labels[|labels| - 1];
    if i < |front| {
      assert labels == front + [last];
      LastOfSnoc(front, last);
      MetricOfLastWins(front, i);
      assert labels[i] == front[i];
    }
  }

  /** Appending a pair adds its name to the names of the list. */
  lemma NamesSnoc(front: seq<Label>, last: Label)
    ensures Names(front + [last]) == Names(front) + {last.name}
  {
    var labels := front + [last];
    forall n | n in Names(labels) ensures n in Names(front) + {last.name} {
      var i :| 0 <= i < |labels| && labels[i].name == n;
      if i < |front| { assert front[i].name == n; }
    }
    forall n | n in Names(front) ensures n in Names(labels) {
      var i :| 0 <= i < |front| && front[i].name == n;
      assert labels[i].name == n;
    }
    assert labels[|front|].name == last.name;
  }

  /** A last occurrence before the appended pair stays a last occurrence without it. */
  lemma LastOfSnoc(front: seq<Label>, last: Label)
    ensures forall i :: IsLast(front + [last], i) && i < |front| ==> IsLast(front, i)
  {
    var labels := front + [last];
    forall i | IsLast(labels, i) && i < |front| ensures IsLast(front, i) {
      forall j | i < j < |front| ensures front[j].name != front[i].name {
        assert labels[j] == front[j];
      }
    }
  }

  /**
   The value a label set holds for `name`, or "" when the name is absent: what
   reading a field back through a JSON round trip of the label set yields.
   */
  function Get(m: LabelSet, name: string): string {
    if name in m then m[name] else ""
  }

  /**
   The label set built pair by pair, as the adapter's loop does: the label
   set of the series, so every name of the list and only those, each with its
   last value.
   */
  method MakeMetric(labels: seq<Label>) returns (m: LabelSet)
    ensures m == MetricOf(labels)
  {
    m := map[];
    var i := 0;
    while i < |labels|
      invariant 0 <= i <= |labels|
      invariant m == MetricOf(labels[..i])
    {
      m := m[labels[i].name := labels[i].value];
      assert labels[..i + 1][..i] == labels[..i];
      i := i + 1;
    }
    assert labels[..i] == labels;
  }

  /**
   Reading a name back from a series' label set: "" when no pair carries that
   name, otherwise the value of the last pair that does.
   */
  lemma GetLastWins(labels: seq<Label>, name: string, i: int)
    requires IsLast(labels, i) && labels[i].name == name
    ensures Get(MetricOf(labels), name) == labels[i].value
  {
    MetricOfLastWins(labels, i);
  }

  /** A name that no pair carries reads back as "". */
  lemma GetAbsent(labels: seq<Label>, name: string)
    requires forall i :: 0 <= i < |labels| ==> labels[i].name != name
    ensures Get(MetricOf(labels), name) == ""
  {
    MetricOfKeys(labels);
  }
}
