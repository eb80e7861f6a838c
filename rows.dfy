/** What `convert_empty_fields` does to one row, as functions on row values. */
module Rows {
  import opened Common
  import opened Text

  /** Every cell of the row is a string: the state in which `val.strip()`
      can be called on each of them. */
  predicate AllStrings(row: Row) {
    forall k :: k in row ==> row[k].Some?
  }

  /** The row holds the sentinel in some cell. */
  predicate HasSentinel(row: Row) {
    exists k :: k in row && row[k].Some? && IsSentinel(row[k].value)
  }

  function NormalizedCell(v: Value): Value {
    if v.Some? && IsSentinel(v.value) then None else v
  }

  /** The row with every sentinel cell replaced by null. */
  function Normalized(row: Row): Row {
    map k | k in row :: NormalizedCell(row[k])
  }

  /** Normalisation keeps the keys, nulls every sentinel cell and leaves
      every other cell as it was. */
  lemma NormalizedMeans(row: Row)
    ensures Normalized(row).Keys == row.Keys
    ensures forall k :: k in row && row[k].Some? && IsSentinel(row[k].value) ==> Normalized(row)[k] == None
    ensures forall k :: k in row && !(row[k].Some? && IsSentinel(row[k].value)) ==> Normalized(row)[k] == row[k]
  {
  }

  /** The outcome of `convert_empty_fields` on a row: it fails with the
      AttributeError of `None.strip()` exactly when some cell is null, and
      otherwise returns a row with the same keys in which every sentinel
      cell is null and every other cell is as it was. */
  function NormalizeRow(row: Row): (r: Result<Row>)
    ensures r.Err? <==> exists k :: k in row && row[k] == None
    ensures r.Err? ==> r.error == NullField
    ensures r.Ok? ==>
      && r.value.Keys == row.Keys
      && (forall k :: k in row && row[k].Some? && IsSentinel(row[k].value) ==> r.value[k] == None)
      && (forall k :: k in row && row[k].Some? && !IsSentinel(row[k].value) ==> r.value[k] == row[k])
  {
    if AllStrings(row) then Ok(Normalized(row)) else Err(NullField)
  }

  /** As a function on rows, normalisation is idempotent. */
  lemma NormalizedIdempotent(row: Row)
    ensures Normalized(Normalized(row)) == Normalized(row)
  {
    var n := Normalized(row);
    assert forall k :: k in n ==> Normalized(n)[k] == n[k];
  }

  /** Applying `convert_empty_fields` a second time fails exactly when the
      first application nulled some cell: `None.strip()` raises. */
  lemma ReapplyFailsOnSentinel(row: Row)
    requires AllStrings(row)
    ensures NormalizeRow(Normalized(row)).Ok? <==> !HasSentinel(row)
  {
    var n := Normalized(row);
    if HasSentinel(row) {
      var k :| k in row && row[k].Some? && IsSentinel(row[k].value);
      assert n[k] == None;
    }
  }
}
