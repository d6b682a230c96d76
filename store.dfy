/**
 * The users table behind the connection pool, as far as the controller sees it. Whether
 * the k-th INSERT of the run succeeds and whether the age query succeeds are fixed by the
 * outside world; they are given when the database is created. A successful INSERT stores
 * the rows its parameters decode to; a failed one stores nothing.
 */
module Store {
  import opened Wrappers
  import opened Rows
  import opened Sql

  /** The ages column of a table, in row order. */
  function AgesOf(table: seq<User>): (ages: seq<int>)
    ensures |ages| == |table|
    ensures forall i :: 0 <= i < |table| ==> ages[i] == table[i].age
  {
    if table == [] then [] else [table[0].age] + AgesOf(table[1..])
  }

  lemma {:induction false} AgesAppend(a: seq<User>, b: seq<User>)
    ensures AgesOf(a + b) == AgesOf(a) + AgesOf(b)
  {
    var l := AgesOf(a + b);
    var r := AgesOf(a) + AgesOf(b);
    assert |l| == |r|;
    forall i | 0 <= i < |l| ensures l[i] == r[i] {
      if i < |a| {
        assert (a + b)[i] == a[i];
      } else {
        assert (a + b)[i] == b[i - |a|];
      }
    }
  }

  class Database {
    /** The rows of public.users. */
    var table: seq<User>
    /** Every INSERT sent so far, successful or not. */
    var inserts: seq<Query>
    /** Whether the INSERT sent when k INSERTs have already been sent succeeds. */
    const insertSucceeds: nat -> bool
    /** Whether SELECT age FROM public.users succeeds. */
    const selectSucceeds: bool

    constructor (table0: seq<User>, insertSucceeds: nat -> bool, selectSucceeds: bool)
      ensures table == table0 && inserts == []
      ensures this.insertSucceeds == insertSucceeds && this.selectSucceeds == selectSucceeds
    {
      table := table0;
      inserts := [];
      this.insertSucceeds := insertSucceeds;
      this.selectSucceeds := selectSucceeds;
    }

    /** pool.query(INSERT ...): all rows are written or, on failure, none. */
    method Insert(q: Query) returns (ok: bool)
      modifies this
      ensures inserts == old(inserts) + [q]
      ensures ok == (insertSucceeds(|old(inserts)|) && DecodeRows(q.params).Some?)
      ensures table == if ok then old(table) + DecodeRows(q.params).value else old(table)
    {
      var rows := DecodeRows(q.params);
      ok := insertSucceeds(|inserts|) && rows.Some?;
      if ok {
        table := table + rows.value;
      }
      inserts := inserts + [q];
    }

    /** pool.query("SELECT age FROM public.users") mapped to the ages: every row, not only this run's. */
    method SelectAges() returns (ages: Option<seq<int>>)
      ensures ages == if selectSucceeds then Some(AgesOf(table)) else None
    {
      if !selectSucceeds {
        return None;
      }
      ages := Some(AgesOf(table));
    }
  }
}
