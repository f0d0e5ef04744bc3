/** The in-memory stand-in for one JPA repository: rows keyed by the
    database-generated identity, and the next identity to hand out. */
module Store {

  class Table<T> {
    var rows: map<nat, T>
    var nextId: nat

    /** Every stored id was handed out before, so `nextId` is always fresh. */
    ghost predicate Valid()
      reads this
    {
      forall id :: id in rows ==> id < nextId
    }

    constructor ()
      ensures Valid() && rows == map[] && nextId == 0
    {
      rows := map[];
      nextId := 0;
    }

    /** `save` of a new entity: it receives the next identity. */
    method Insert(x: T) returns (id: nat)
      requires Valid()
      modifies this
      ensures Valid()
      ensures id == old(nextId) && id !in old(rows)
      ensures rows == old(rows)[id := x] && nextId == old(nextId) + 1
    {
      id := nextId;
      rows := rows[id := x];
      nextId := nextId + 1;
    }
  }
}
