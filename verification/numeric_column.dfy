/**
 The `monitoring` table as createTable declares it keeps `value` in a BIGINT
 column, while the insert hands over the fixed-point text of a float and
 compares `value = ?` against that text. The database then stores an integer
 obtained from the text and compares numerically, so a value whose `%f` text
 has a non-zero fractional part never equals any stored value. This module models that column and shows
 the not-exists insert losing its idempotence; `Store.Insert`, which keeps the
 value as text, is the behaviour the rest of the model uses.
 */
module NumericColumn {

  /** A row with the value column coerced to an integer. */
  datatype IntRow = IntRow(dateTime: string, metricsName: string, value: int)

  /** The table with a BIGINT value column. */
  datatype IntTable = IntTable(rows: seq<IntRow>)

  /**
   The not-exists test as the database evaluates it: same date and name, and a
   stored integer numerically equal to the number `v` the value text denotes.
   */
  predicate HasNumeric(t: IntTable, dateTime: string, name: string, v: real) {
    exists i :: 0 <= i < |t.rows| && t.rows[i].dateTime == dateTime
      && t.rows[i].metricsName == name && t.rows[i].value as real == v
  }

  /**
   The insert as it runs against the BIGINT column: when the test finds no
   equal row, a row is appended whose value is `coerce(v)`, the integer the
   database makes of the text (rounding or truncation, left abstract).
   */
  function InsertAsWritten(t: IntTable, dateTime: string, name: string, v: real, coerce: real -> int): (t': IntTable)
    ensures t.rows <= t'.rows
    ensures |t'.rows| == |t.rows| + (if HasNumeric(t, dateTime, name, v) then 0 else 1)
  {
    if HasNumeric(t, dateTime, name, v) then t
    else IntTable(t.rows + [IntRow(dateTime, name, coerce(v))])
  }

  /**
   A value whose `%f` text has a non-zero fractional part (`v` is the number
   that text denotes, not the sample value before formatting) is never found
   by the not-exists test, so inserting the same triple twice in a row stores
   two rows, not one.
   */
  lemma FractionalValueDuplicates(t: IntTable, dateTime: string, name: string, v: real, coerce: real -> int)
    requires v.Floor as real != v
    ensures |InsertAsWritten(InsertAsWritten(t, dateTime, name, v, coerce), dateTime, name, v, coerce).rows| == |t.rows| + 2
  {
  }

  /** The concrete case: 42.5, sent as "42.500000", is stored twice on replay. */
  lemma FortyTwoAndAHalf(coerce: real -> int)
    ensures |InsertAsWritten(InsertAsWritten(IntTable([]), "2024-01-01", "cpu", 42.5, coerce), "2024-01-01", "cpu", 42.5, coerce).rows| == 2
  {
  }
}
