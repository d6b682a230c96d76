/**
 * The statement insertBatch sends: one multi-row INSERT into public.users with a group of
 * four numbered placeholders per user, and the parameter list that binds them, four per
 * user in the column order name, age, address, additional_info.
 */
module Sql {
  import opened Wrappers
  import opened Strings
  import opened Nested
  import opened Rows

  /** A bound parameter: the name as text, the age as an integer, the two objects as JSON. */
  datatype Param = PText(text: string) | PInt(n: int) | PJson(v: Value)

  /**
   * A multi-row INSERT into public.users: the number of rows it inserts, one placeholder
   * group each, and the values of $1, $2, ... in order. Text(q) is the SQL it sends.
   */
  datatype Query = Insert(rows: nat, params: seq<Param>)

  /** The four parameters of one user, in column order. */
  function Columns(u: User): seq<Param> {
    [PText(u.name), PInt(u.age), PJson(u.address), PJson(Obj(u.additionalInfo))]
  }

  /** The parameter list of a batch: the users' columns one after the other. */
  function Params(batch: seq<User>): (ps: seq<Param>)
    ensures |ps| == 4 * |batch|
  {
    if batch == [] then [] else Columns(batch[0]) + Params(batch[1..])
  }

  lemma {:induction false} ParamsAppend(batch: seq<User>, u: User)
    ensures Params(batch + [u]) == Params(batch) + Columns(u)
  {
    if batch != [] {
      assert (batch + [u])[1..] == batch[1..] + [u];
      ParamsAppend(batch[1..], u);
    } else {
      assert [u][1..] == [];
    }
  }

  /** Placeholder $k of the statement is bound to params[k - 1]: $4i+c+1 is column c of user i. */
  lemma {:induction false} ParamsBinding(batch: seq<User>, i: nat, c: nat)
    requires i < |batch| && c < 4
    ensures Params(batch)[4 * i + c] == Columns(batch[i])[c]
  {
    if i > 0 {
      ParamsBinding(batch[1..], i - 1, c);
      assert Params(batch)[4 * i + c] == Params(batch[1..])[4 * (i - 1) + c];
    }
  }

  /** The rows a parameter list stores when read back four at a time; None when it does not fit. */
  function DecodeRows(ps: seq<Param>): Option<seq<User>>
    decreases |ps|
  {
    if ps == [] then Some([])
    else if |ps| < 4 then None
    else if ps[0].PText? && ps[1].PInt? && ps[2].PJson? && ps[3].PJson? && ps[3].v.Obj? then
      match DecodeRows(ps[4..])
      case None => None
      case Some(rest) => Some([User(ps[0].text, ps[1].n, ps[2].v, ps[3].v.fields)] + rest)
    else None
  }

  /** The rows read back from the parameters are exactly the batch, in order. */
  lemma {:induction false} DecodeParams(batch: seq<User>)
    ensures DecodeRows(Params(batch)) == Some(batch)
  {
    if batch != [] {
      DecodeParams(batch[1..]);
      var ps := Params(batch);
      assert ps[4..] == Params(batch[1..]);
      assert [batch[0]] + batch[1..] == batch;
    }
  }

  /** The placeholder group of the user at index idx: ($4idx+1, $4idx+2, $4idx+3, $4idx+4). */
  function Group(idx: nat): string {
    var base := idx * 4;
    "($" + DecimalString(base + 1) + ", $" + DecimalString(base + 2)
      + ", $" + DecimalString(base + 3) + ", $" + DecimalString(base + 4) + ")"
  }

  /** The placeholder groups of the first n users. */
  function Groups(n: nat): (gs: seq<string>)
    ensures |gs| == n
  {
    if n == 0 then [] else Groups(n - 1) + [Group(n - 1)]
  }

  /** Group i sits at index i, whatever the batch size. */
  lemma {:induction false} GroupsAt(n: nat, i: nat)
    requires i < n
    ensures Groups(n)[i] == Group(i)
  {
    if i < n - 1 {
      GroupsAt(n - 1, i);
    }
  }

  const InsertPrefix := "INSERT INTO public.users (name, age, address, additional_info) VALUES "

  /** The SQL text of an INSERT: the fixed prefix and the placeholder groups, comma-separated. */
  function Text(q: Query): string {
    InsertPrefix + Join(Groups(q.rows), ',')
  }

  /** The statement for a non-empty batch: one row per user, four parameters each. */
  function Statement(batch: seq<User>): (q: Query)
    ensures 4 * q.rows == |q.params|
  {
    Insert(|batch|, Params(batch))
  }

  /** The statements of several batches, in order. */
  function Statements(batches: seq<seq<User>>): (qs: seq<Query>)
    ensures |qs| == |batches|
  {
    if batches == [] then [] else [Statement(batches[0])] + Statements(batches[1..])
  }

  lemma {:induction false} StatementsAppend(a: seq<seq<User>>, b: seq<seq<User>>)
    ensures Statements(a + b) == Statements(a) + Statements(b)
  {
    if a != [] {
      assert (a + b)[1..] == a[1..] + b;
      StatementsAppend(a[1..], b);
    } else {
      assert a + b == b;
    }
  }

  /**
   * The statement building of insertBatch: no statement at all for an empty batch, otherwise
   * one placeholder group and four parameters per user.
   */
  method BuildInsert(batchToInsert: seq<User>) returns (query: Option<Query>, text: string)
    ensures query == if batchToInsert == [] then None else Some(Statement(batchToInsert))
    ensures query.Some? ==> text == Text(query.value)
  {
    if |batchToInsert| == 0 {
      return None, "";
    }
    var values: seq<string> := [];
    var params: seq<Param> := [];
    var idx := 0;
    while idx < |batchToInsert|
      invariant 0 <= idx <= |batchToInsert|
      invariant values == Groups(idx)
      invariant params == Params(batchToInsert[..idx])
    {
      var base := idx * 4;
      var group := "($" + DecimalString(base + 1) + ", $" + DecimalString(base + 2)
        + ", $" + DecimalString(base + 3) + ", $" + DecimalString(base + 4) + ")";
      assert group == Group(idx);
      values := values + [group];
      var user := batchToInsert[idx];
      ParamsAppend(batchToInsert[..idx], user);
      assert batchToInsert[..idx + 1] == batchToInsert[..idx] + [user];
      params := params + [PText(user.name), PInt(user.age), PJson(user.address), PJson(Obj(user.additionalInfo))];
      idx := idx + 1;
    }
    assert batchToInsert[..idx] == batchToInsert;
    text := InsertPrefix + Join(values, ',');
    query := Some(Insert(|values|, params));
  }
}
