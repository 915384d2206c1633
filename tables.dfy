/**
  The storage tables behind the repositories, as the in-memory fake keeps
  them: items keyed by the string of their id, answering the key-condition
  queries of `get_record`.
*/
module Tables {
  import opened Values
  import opened Common

  type Table = map<string, Record>

  /** What `table.query` answers for a key condition on the fake table. */
  function Query(table: Table, status: int, c: KeyCondition): (q: QueryResult)
    ensures q.httpStatusCode == status
    ensures q.count == |q.items| <= 1
    ensures q.count == 1 <==> c.attribute == "id" && c.value in table
    ensures q.count == 1 ==> q.items[0] == table[c.value]
  {
    if c.attribute == "id" && c.value in table then QueryResult(status, 1, [table[c.value]])
    else QueryResult(status, 0, [])
  }

  /** Every item is stored under the string of its own `id`. */
  predicate Keyed(table: Table) {
    forall k :: k in table ==> "id" in table[k] && table[k]["id"] == VStr(k)
  }

  /** Storing under a key and then removing that key is removing it. */
  lemma StoreThenRemove(table: Table, k: string, item: Record)
    ensures table[k := item] - {k} == table - {k}
  {
  }
}
