/**
 * What the core sees of the relational store: a point lookup by key that
 * finds a row, finds no row, or fails for another reason, and the two kinds
 * of failure an insert reports.
 */
module Persistence {

  /** The outcome of a `SELECT … WHERE key = $1` that scans one row. */
  datatype LookupOutcome<V> = Found(row: V) | NoRows | OtherError

  /** A failed insert: the unique-constraint code 23505, or anything else. */
  datatype DbError = UniqueViolation | OtherDbError

  /**
   * Looks up a key in a table. `fault` stands for a failure of the store
   * itself (connectivity, serialization), which is reported instead of the
   * row or its absence.
   */
  function GetByKey<K, V>(table: map<K, V>, key: K, fault: bool): (r: LookupOutcome<V>)
    ensures r.Found? <==> !fault && key in table
    ensures r.Found? ==> r.row == table[key]
    ensures r.NoRows? <==> !fault && key !in table
    ensures r.OtherError? <==> fault
  {
    if fault then OtherError
    else if key in table then Found(table[key])
    else NoRows
  }
}
