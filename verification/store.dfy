/**
 The `monitoring` table and the duplicate-safe insert (main.go, createTable and
 insert). A row is a (date_time, metrics_name, value) triple under an
 auto-increment id; the insert statement adds the triple only when no existing
 row has the same three columns, and nothing ever updates or deletes a row.
 */
module Store {

  /** The three columns the insert writes and compares. */
  datatype Row = Row(dateTime: string, metricsName: string, value: string)

  /** A persisted row: the auto-increment id and the triple. */
  datatype StoredRow = StoredRow(id: nat, row: Row)

  /** The table: its rows in insertion order and the next auto-increment id. */
  datatype Table = Table(rows: seq<StoredRow>, nextId: nat)


  /** Some row of the table holds the triple `r`. */
  predicate Has(t: Table, r: Row) {
    exists i :: 0 <= i < |t.rows| && t.rows[i].row == r
  }

  /** No two rows hold the same triple. */
  ghost predicate NoDuplicates(t: Table) {
    forall i, j :: 0 <= i < j < |t.rows| ==> t.rows[i].row != t.rows[j].row
  }

  /** Ids increase strictly in insertion order and stay below the next id: a valid primary key. */
  ghost predicate IdsValid(t: Table) {
    && (forall i :: 0 <= i < |t.rows| ==> t.rows[i].id < t.nextId)
    && (forall i, j :: 0 <= i < j < |t.rows| ==> t.rows[i].id < t.rows[j].id)
  }

  /** How many rows hold the triple `r`. */
  function Count(t: Table, r: Row): nat {
    |set i | 0 <= i < |t.rows| && t.rows[i].row == r|
  }

  /**
   insert into monitoring ... where not exists (...): a table that already
   holds the triple is left as it is; otherwise exactly one row is added, at
   the end, so every existing row stays where and what it was. Afterwards the
   table holds the triple, and holds no other new triple.
   */
  function Insert(t: Table, r: Row): (t': Table)
    ensures Has(t', r)
    ensures Has(t, r) ==> t' == t
    ensures !Has(t, r) ==> |t'.rows| == |t.rows| + 1 && t'.rows[|t.rows|].row == r
    ensures t.rows <= t'.rows
    ensures forall x :: Has(t', x) <==> Has(t, x) || x == r
  {
    if Has(t, r) then t
    else
      var t' := Table(t.rows + [StoredRow(t.nextId, r)], t.nextId + 1);
      assert t'.rows[|t.rows|].row == r;
      assert forall i :: 0 <= i < |t.rows| ==> t'.rows[i] == t.rows[i];
      t'
  }

  /** Inserting the same triple twice in a row leaves the table as inserting it once. */
  lemma InsertIdempotent(t: Table, r: Row)
    ensures Insert(Insert(t, r), r) == Insert(t, r)
  {
  }

  /** The insert never creates a second row with an existing triple. */
  lemma InsertKeepsNoDuplicates(t: Table, r: Row)
    requires NoDuplicates(t)
    ensures NoDuplicates(Insert(t, r))
  {
  }

  /** The insert keeps the id column a valid primary key. */
  lemma InsertKeepsIdsValid(t: Table, r: Row)
    requires IdsValid(t)
    ensures IdsValid(Insert(t, r))
  {
  }

  /** In a table without duplicates, a triple that is present is held by exactly one row. */
  lemma CountOne(t: Table, r: Row)
    requires NoDuplicates(t) && Has(t, r)
    ensures Count(t, r) == 1
  {
    var i :| 0 <= i < |t.rows| && t.rows[i].row == r;
    assert (set j | 0 <= j < |t.rows| && t.rows[j].row == r) == {i};
  }
}
