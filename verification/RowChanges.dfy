/** Changes of one row of a table. */
module RowChanges {
  import opened Options

  datatype Change<Row> = Insert(row: Row) | Update(row: Row) | Delete

  /** An insert needs a new id; the others touch a row only where there is one. */
  predicate Applies<Row>(table: map<nat, Row>, id: nat, change: Change<Row>) {
    change.Insert? <==> id !in table
  }

  function Before<Row>(table: map<nat, Row>, id: nat, change: Change<Row>): Option<Row> {
    if !change.Insert? && id in table then Some(table[id]) else None
  }

  function After<Row>(change: Change<Row>): Option<Row> {
    if change.Delete? then None else Some(change.row)
  }

  function Apply<Row>(table: map<nat, Row>, id: nat, change: Change<Row>): map<nat, Row> {
    if change.Delete? then table - {id} else table[id := change.row]
  }
}
