/**
 * uploadCsv: without a file path it answers 400; otherwise it streams the file, pushes every
 * yielded user through the batch accumulator, flushes the remainder, answers 400 when no
 * user was yielded, and otherwise reports the number written and the age distribution of
 * the whole table. A parse, read or in-loop INSERT failure answers 500 "CSV parsing or
 * reading failed"; a failure of the last INSERT answers 500 "Database insert failed (final batch)".
 */
module Upload {
  import opened Wrappers
  import opened Rows
  import opened Drivers
  import opened Sql
  import opened Store
  import opened Loader
  import opened Ages

  /** The error responses of the controller. */
  datatype Failure = NoPath | ParseOrRead | FinalInsert | NoRecords

  function Message(f: Failure): string {
    match f
    case NoPath => "CSV_FILE_PATH not defined in .env"
    case ParseOrRead => "CSV parsing or reading failed"
    case FinalInsert => "Database insert failed (final batch)"
    case NoRecords => "No valid records found in CSV"
  }

  datatype Response =
    | BadRequest(error: Failure)
    | ServerError(error: Failure)
    | Done(recordsInserted: nat, distribution: map<Bucket, Cell>)

  function Status(r: Response): nat {
    match r
    case BadRequest(_) => 400
    case ServerError(_) => 500
    case Done(_, _) => 200
  }

  /** The stream over the lines read; a read error after them fails it as well. */
  function ReadOutcome(lines: seq<string>, readError: bool): Outcome {
    var o := Stream(lines);
    Outcome(o.records, o.failed || readError)
  }

  /** The number of users in the full batches among the first n. */
  function Full(n: nat): nat {
    n - n % BatchSize
  }

  /**
   * The batches the controller tries to write: every full batch; the remainder only when
   * the stream ended normally.
   */
  function Attempted(out: Outcome): seq<seq<User>> {
    if out.failed then Chunks(out.records[..Full(|out.records|)]) else Chunks(out.records)
  }

  /** How many of the batches are written before the first INSERT that fails. */
  function Committed(batches: seq<seq<User>>, sent: nat, succeeds: nat -> bool): (m: nat)
    ensures m <= |batches|
    decreases |batches|
  {
    if batches == [] then 0
    else if succeeds(sent) then 1 + Committed(batches[1..], sent + 1, succeeds)
    else 0
  }

  /** The number of INSERTs sent: the committed ones and the one that failed, if any. */
  function Tried(m: nat, n: nat): nat {
    if m < n then m + 1 else m
  }

  /** The response chosen once the stream and the INSERTs are done. */
  function Verdict(out: Outcome, batches: seq<seq<User>>, m: nat, distribution: map<Bucket, Cell>): Response {
    if m < |batches| then
      ServerError(if !out.failed && m == |batches| - 1 && |out.records| % BatchSize != 0 then FinalInsert else ParseOrRead)
    else if out.failed then ServerError(ParseOrRead)
    else if out.records == [] then BadRequest(NoRecords)
    else Done(|out.records|, distribution)
  }

  /** The age report of a table: the distribution of its ages, or N/A when the query fails. */
  function Report(table: seq<User>, selectSucceeds: bool): map<Bucket, Cell> {
    if selectSucceeds then Distribution(AgesOf(table)) else Unavailable()
  }

  /** Writing a + b: the batches of b are reached only when every batch of a was written. */
  lemma {:induction false} CommittedAppend(a: seq<seq<User>>, b: seq<seq<User>>, sent: nat, succeeds: nat -> bool)
    ensures Committed(a + b, sent, succeeds)
         == if Committed(a, sent, succeeds) < |a| then Committed(a, sent, succeeds)
            else |a| + Committed(b, sent + |a|, succeeds)
    decreases |a|
  {
    if a == [] {
      assert a + b == b;
    } else {
      assert (a + b)[1..] == a[1..] + b;
      CommittedAppend(a[1..], b, sent + 1, succeeds);
    }
  }

  /** While every INSERT succeeds, all the batches are written. */
  lemma {:induction false} AllCommitted(batches: seq<seq<User>>, sent: nat, succeeds: nat -> bool)
    requires forall j :: sent <= j < sent + |batches| ==> succeeds(j)
    ensures Committed(batches, sent, succeeds) == |batches|
    decreases |batches|
  {
    if batches != [] {
      AllCommitted(batches[1..], sent + 1, succeeds);
    }
  }

  /** The writing stops at the first INSERT that fails. */
  lemma {:induction false} StopsAt(batches: seq<seq<User>>, sent: nat, succeeds: nat -> bool, k: nat)
    requires k < |batches|
    requires forall j :: sent <= j < sent + k ==> succeeds(j)
    requires !succeeds(sent + k)
    ensures Committed(batches, sent, succeeds) == k
    decreases k
  {
    if k > 0 {
      StopsAt(batches[1..], sent + 1, succeeds, k - 1);
    }
  }

  /**
   * The state of the for-await loop after the first i users: the first w of them, a whole
   * number of batches, were written by INSERTs that all succeeded, and the rest wait in the batch.
   */
  ghost predicate Loaded(loader: BatchLoader, records: seq<User>, i: nat, w: nat, t0: seq<User>, q0: seq<Query>)
    reads loader, loader.db
  {
    && i <= |records|
    && w % BatchSize == 0 && w <= i < w + BatchSize
    && loader.insertedCount == w && loader.batch == records[w..i]
    && loader.parsedAny == (i > 0)
    && loader.db.table == t0 + records[..w]
    && loader.db.inserts == q0 + Statements(Chunks(records[..w]))
    && Committed(Chunks(records[..w]), |q0|, loader.db.insertSucceeds) == |Chunks(records[..w])|
  }

  /**
   * One iteration of the for-await loop: user i joins the batch. When the INSERT of a full
   * batch fails, what was written and sent is what the specification says for the whole stream.
   */
  method PushOne(loader: BatchLoader, records: seq<User>, i: nat, ghost w: nat, ghost t0: seq<User>, ghost q0: seq<Query>)
    returns (ok: bool, ghost w': nat)
    requires i < |records| && Loaded(loader, records, i, w, t0, q0)
    modifies loader, loader.db
    ensures ok ==> Loaded(loader, records, i + 1, w', t0, q0)
    ensures !ok ==>
      var full := Chunks(records[..Full(|records|)]);
      var m := Committed(full, |q0|, loader.db.insertSucceeds);
      && m < |full|
      && loader.db.table == t0 + Flatten(full[..m])
      && loader.db.inserts == q0 + Statements(full[..Tried(m, |full|)])
      && loader.batch == full[m] && loader.insertedCount == BatchSize * m && loader.parsedAny
  {
    if |loader.batch| + 1 == BatchSize {
      ok, w' := PushLast(loader, records, i, w, t0, q0);
    } else {
      assert loader.batch + [records[i]] == records[w..i + 1];
      ok := loader.Push(records[i]);
      w' := w;
    }
  }

  /** The iteration whose user fills the batch: the batch is sent as one INSERT. */
  method PushLast(loader: BatchLoader, records: seq<User>, i: nat, ghost w: nat, ghost t0: seq<User>, ghost q0: seq<Query>)
    returns (ok: bool, ghost w': nat)
    requires i < |records| && Loaded(loader, records, i, w, t0, q0) && i + 1 == w + BatchSize
    modifies loader, loader.db
    ensures ok ==> Loaded(loader, records, i + 1, w', t0, q0)
    ensures !ok ==>
      var full := Chunks(records[..Full(|records|)]);
      var m := Committed(full, |q0|, loader.db.insertSucceeds);
      && m < |full|
      && loader.db.table == t0 + Flatten(full[..m])
      && loader.db.inserts == q0 + Statements(full[..Tried(m, |full|)])
      && loader.batch == full[m] && loader.insertedCount == BatchSize * m && loader.parsedAny
  {
    ghost var db := loader.db;
    assert loader.batch + [records[i]] == records[w..i + 1];
    Step(records, i, w, t0, q0, db.insertSucceeds);
    w' := i + 1;
    ok := loader.Push(records[i]);
  }

  lemma Step(records: seq<User>, i: nat, w: nat, t0: seq<User>, q0: seq<Query>, succeeds: nat -> bool)
    requires i < |records| && w % BatchSize == 0 && w <= i && i + 1 == w + BatchSize
    requires Committed(Chunks(records[..w]), |q0|, succeeds) == |Chunks(records[..w])|
    ensures (i + 1) % BatchSize == 0
    ensures t0 + records[..i + 1] == (t0 + records[..w]) + records[w..i + 1]
    ensures q0 + Statements(Chunks(records[..i + 1]))
         == (q0 + Statements(Chunks(records[..w]))) + [Statement(records[w..i + 1])]
    ensures |q0 + Statements(Chunks(records[..w]))| == |q0| + |Chunks(records[..w])|
    ensures succeeds(|q0| + |Chunks(records[..w])|) ==>
      Committed(Chunks(records[..i + 1]), |q0|, succeeds) == |Chunks(records[..i + 1])|
    ensures !succeeds(|q0| + |Chunks(records[..w])|) ==>
      var full := Chunks(records[..Full(|records|)]);
      var m := Committed(full, |q0|, succeeds);
      && m < |full|
      && t0 + Flatten(full[..m]) == t0 + records[..w]
      && q0 + Statements(full[..Tried(m, |full|)])
         == (q0 + Statements(Chunks(records[..w]))) + [Statement(records[w..i + 1])]
      && full[m] == records[w..i + 1] && BatchSize * m == w
  {
    assert records[..i + 1] == records[..w] + records[w..i + 1];
    BatchCommitted(records, w, succeeds, |q0|);
    BatchStatements(records, w);
    NextWhole(w);
    ChunksUpTo(records, w);
    if !succeeds(|q0| + |Chunks(records[..w])|) {
      FailedBatch(records, w, succeeds, |q0|);
    }
  }

  /**
   * The for-await loop of uploadCsv over the yielded users: every full batch is written as it
   * fills, and the loop ends at the first INSERT that fails.
   */
  method PushAll(loader: BatchLoader, records: seq<User>) returns (ok: bool)
    requires loader.batch == [] && loader.insertedCount == 0 && !loader.parsedAny
    modifies loader, loader.db
    ensures var full := Chunks(records[..Full(|records|)]);
      var m := Committed(full, |old(loader.db.inserts)|, loader.db.insertSucceeds);
      && ok == (m == |full|)
      && loader.db.table == old(loader.db.table) + Flatten(full[..m])
      && loader.db.inserts == old(loader.db.inserts) + Statements(full[..Tried(m, |full|)])
      && (ok ==> && loader.batch == records[Full(|records|)..] && loader.insertedCount == Full(|records|)
                 && loader.parsedAny == (|records| > 0))
      && (!ok ==> loader.batch == full[m] && loader.insertedCount == BatchSize * m && loader.parsedAny)
  {
    ghost var t0, q0 := loader.db.table, loader.db.inserts;
    ghost var written: nat := 0;
    var i: nat := 0;
    assert records[..0] == [] && Statements([]) == [] && q0 + [] == q0;
    while i < |records|
      invariant Loaded(loader, records, i, written, t0, q0)
    {
      ok, written := PushOne(loader, records, i, written, t0, q0);
      if !ok {
        return;
      }
      i := i + 1;
    }
    FullOf(written, |records|);
    FlattenChunks(records[..written]);
    ghost var full := Chunks(records[..written]);
    assert full[..|full|] == full;
    ok := true;
  }

  /** A whole number of batches and one more batch is a whole number of batches. */
  lemma NextWhole(w: nat)
    requires w % BatchSize == 0
    ensures (w + BatchSize) % BatchSize == 0
  {
  }

  /** A whole number of batches followed by fewer than a batch: its full part is the former. */
  lemma FullOf(w: nat, n: nat)
    requires w % BatchSize == 0 && w <= n < w + BatchSize
    ensures Full(n) == w
  {
  }

  /** The batches of w users and of the next BatchSize users: the earlier ones and the new one. */
  lemma ChunksUpTo(records: seq<User>, w: nat)
    requires w % BatchSize == 0 && w + BatchSize <= |records|
    ensures Chunks(records[..w + BatchSize]) == Chunks(records[..w]) + [records[w..w + BatchSize]]
    ensures |Chunks(records[..w])| == w / BatchSize
  {
    var next := records[w..w + BatchSize];
    assert records[..w + BatchSize] == records[..w] + next;
    ChunksAppend(records[..w], next);
    ChunkCount(records[..w]);
  }

  /** One more batch after batches that were all written: it is written when its INSERT succeeds. */
  lemma CommittedNext(done: seq<seq<User>>, next: seq<User>, sent: nat, succeeds: nat -> bool)
    requires Committed(done, sent, succeeds) == |done|
    ensures Committed(done + [next], sent, succeeds) == |done| + (if succeeds(sent + |done|) then 1 else 0)
  {
    CommittedAppend(done, [next], sent, succeeds);
  }

  /** The batch after w users is written when its INSERT succeeds, after all the earlier ones. */
  lemma BatchCommitted(records: seq<User>, w: nat, succeeds: nat -> bool, sent: nat)
    requires w % BatchSize == 0 && w + BatchSize <= |records|
    requires Committed(Chunks(records[..w]), sent, succeeds) == |Chunks(records[..w])|
    ensures Committed(Chunks(records[..w + BatchSize]), sent, succeeds)
         == |Chunks(records[..w])| + (if succeeds(sent + |Chunks(records[..w])|) then 1 else 0)
  {
    ChunksUpTo(records, w);
    CommittedNext(Chunks(records[..w]), records[w..w + BatchSize], sent, succeeds);
  }

  /** The batch after w users adds one statement after those of the earlier batches. */
  lemma BatchStatements(records: seq<User>, w: nat)
    requires w % BatchSize == 0 && w + BatchSize <= |records|
    ensures Statements(Chunks(records[..w + BatchSize]))
         == Statements(Chunks(records[..w])) + [Statement(records[w..w + BatchSize])]
  {
    ChunksUpTo(records, w);
    StatementsAppend(Chunks(records[..w]), [records[w..w + BatchSize]]);
  }

  /** The batch after w users fails: it is the last statement sent, and the writing stops before it. */
  lemma FailedBatch(records: seq<User>, w: nat, succeeds: nat -> bool, sent: nat)
    requires w % BatchSize == 0 && w + BatchSize <= |records|
    requires Committed(Chunks(records[..w]), sent, succeeds) == |Chunks(records[..w])|
    requires !succeeds(sent + |Chunks(records[..w])|)
    ensures var full := Chunks(records[..Full(|records|)]);
      var m := Committed(full, sent, succeeds);
      && m < |full|
      && Flatten(full[..m]) == records[..w]
      && Statements(full[..Tried(m, |full|)])
         == Statements(Chunks(records[..w])) + [Statement(records[w..w + BatchSize])]
      && full[m] == records[w..w + BatchSize] && BatchSize * m == w
  {
    var f := Full(|records|);
    var e := w + BatchSize;
    assert e <= f;
    ChunksUpTo(records, w);
    BatchCommitted(records, w, succeeds, sent);
    BatchStatements(records, w);
    var upto := Chunks(records[..e]);
    assert records[..f] == records[..e] + records[e..f];
    ChunksAppend(records[..e], records[e..f]);
    CommittedAppend(upto, Chunks(records[e..f]), sent, succeeds);
    var full := Chunks(records[..f]);
    assert full[..|upto|] == upto;
    assert full[..|upto| - 1] == upto[..|upto| - 1] == Chunks(records[..w]);
    FlattenChunks(records[..w]);
  }

  /**
   * The attempted batches are the full batches of the records, followed by the remainder
   * only when the stream ended normally and users are left over.
   */
  lemma AttemptedSplit(out: Outcome)
    ensures var r := out.records;
      var full := Chunks(r[..Full(|r|)]);
      && |full| == Full(|r|) / BatchSize
      && Attempted(out) == full + (if out.failed || Full(|r|) == |r| then [] else [r[Full(|r|)..]])
  {
    var r := out.records;
    var f := Full(|r|);
    assert r == r[..f] + r[f..];
    ChunksAppend(r[..f], r[f..]);
    ChunkCount(r[..f]);
    if f == |r| {
      assert r[..f] == r;
    }
  }

  /** An INSERT of a full batch failed inside the loop: the response is 500, whatever came after. */
  lemma EarlyStop(out: Outcome, sent: nat, succeeds: nat -> bool, d: map<Bucket, Cell>)
    requires var full := Chunks(out.records[..Full(|out.records|)]);
      Committed(full, sent, succeeds) < |full|
    ensures var full := Chunks(out.records[..Full(|out.records|)]);
      var batches := Attempted(out);
      var m := Committed(batches, sent, succeeds);
      && m == Committed(full, sent, succeeds)
      && batches[..m] == full[..m]
      && batches[..Tried(m, |batches|)] == full[..Tried(m, |full|)]
      && Verdict(out, batches, m, d) == ServerError(ParseOrRead)
  {
    var r := out.records;
    var full := Chunks(r[..Full(|r|)]);
    var extra: seq<seq<User>> := if out.failed || Full(|r|) == |r| then [] else [r[Full(|r|)..]];
    AttemptedSplit(out);
    CommittedAppend(full, extra, sent, succeeds);
    var m := Committed(full, sent, succeeds);
    assert (full + extra)[..m] == full[..m] && (full + extra)[..m + 1] == full[..m + 1];
  }

  /** The stream failed after every full batch was written: the response is 500 and nothing else is sent. */
  lemma StreamFailed(out: Outcome, sent: nat, succeeds: nat -> bool, d: map<Bucket, Cell>)
    requires out.failed
    requires var full := Chunks(out.records[..Full(|out.records|)]);
      Committed(full, sent, succeeds) == |full|
    ensures var batches := Attempted(out);
      var m := Committed(batches, sent, succeeds);
      && batches == Chunks(out.records[..Full(|out.records|)])
      && m == |batches| && Tried(m, |batches|) == m && batches[..m] == batches
      && Verdict(out, batches, m, d) == ServerError(ParseOrRead)
  {
    var batches := Attempted(out);
    assert batches[..|batches|] == batches;
  }

  /**
   * The stream ended normally after every full batch was written, with no users left over:
   * nothing more is sent, and the response is 400 when there were no users at all.
   */
  lemma FinishedEven(out: Outcome, sent: nat, succeeds: nat -> bool, d: map<Bucket, Cell>, t0: seq<User>, q0: seq<Query>)
    requires !out.failed && out.records[Full(|out.records|)..] == []
    requires var full := Chunks(out.records[..Full(|out.records|)]);
      Committed(full, sent, succeeds) == |full|
    ensures var r := out.records;
      var full := Chunks(r[..Full(|r|)]);
      var batches := Attempted(out);
      var m := Committed(batches, sent, succeeds);
      && r[Full(|r|)..] == [] && Full(|r|) == |r|
      && t0 + Flatten(full[..|full|]) == t0 + Flatten(batches[..m]) == t0 + r
      && q0 + Statements(full[..|full|]) == q0 + Statements(batches[..Tried(m, |batches|)])
      && Verdict(out, batches, m, d) == (if r == [] then BadRequest(NoRecords) else Done(|r|, d))
  {
    var r := out.records;
    assert r[..Full(|r|)] == r;
    var batches := Attempted(out);
    assert batches[..|batches|] == batches;
    FlattenChunks(r);
  }

  /**
   * The stream ended normally with users left over after the full batches, all of which were
   * written: the remainder is the last batch attempted, and it is written when its INSERT succeeds.
   */
  lemma RestShape(out: Outcome, sent: nat, succeeds: nat -> bool)
    requires !out.failed && out.records[Full(|out.records|)..] != []
    requires var full := Chunks(out.records[..Full(|out.records|)]);
      Committed(full, sent, succeeds) == |full|
    ensures var r := out.records;
      var full := Chunks(r[..Full(|r|)]);
      var rest := r[Full(|r|)..];
      var batches := Attempted(out);
      var m := Committed(batches, sent, succeeds);
      && r == r[..Full(|r|)] + rest
      && batches == full + [rest]
      && m == (if succeeds(sent + |full|) then |batches| else |full|)
      && full[..|full|] == full && batches[..|full|] == full && batches[..|batches|] == batches
  {
    var r := out.records;
    var f := Full(|r|);
    var full := Chunks(r[..f]);
    var rest := r[f..];
    var batches := Attempted(out);
    AttemptedSplit(out);
    assert r == r[..f] + rest;
    CommittedAppend(full, [rest], sent, succeeds);
    assert full[..|full|] == full;
    assert batches[..|full|] == full;
    assert batches[..|batches|] == batches;
  }

  /** With users left over, they are sent as the last statement. */
  lemma FinishedRestSent(out: Outcome, sent: nat, succeeds: nat -> bool, q0: seq<Query>)
    requires !out.failed && out.records[Full(|out.records|)..] != []
    requires var full := Chunks(out.records[..Full(|out.records|)]);
      Committed(full, sent, succeeds) == |full|
    ensures var r := out.records;
      var full := Chunks(r[..Full(|r|)]);
      var rest := r[Full(|r|)..];
      var batches := Attempted(out);
      var m := Committed(batches, sent, succeeds);
      && |q0 + Statements(full[..|full|])| == |q0| + |full|
      && (q0 + Statements(full[..|full|])) + [Statement(rest)] == q0 + Statements(batches[..Tried(m, |batches|)])
  {
    var r := out.records;
    RestShape(out, sent, succeeds);
    StatementsAppend(Chunks(r[..Full(|r|)]), [r[Full(|r|)..]]);
  }

  /** With users left over and their INSERT succeeding, the table holds all the users and the response is 200. */
  lemma FinishedRestDone(out: Outcome, sent: nat, succeeds: nat -> bool, d: map<Bucket, Cell>, t0: seq<User>)
    requires !out.failed && out.records[Full(|out.records|)..] != []
    requires var full := Chunks(out.records[..Full(|out.records|)]);
      Committed(full, sent, succeeds) == |full| && succeeds(sent + |full|)
    ensures var r := out.records;
      var full := Chunks(r[..Full(|r|)]);
      var batches := Attempted(out);
      var m := Committed(batches, sent, succeeds);
      && Full(|r|) + |r[Full(|r|)..]| == |r|
      && (t0 + Flatten(full[..|full|])) + r[Full(|r|)..] == t0 + Flatten(batches[..m]) == t0 + r
      && Verdict(out, batches, m, d) == Done(|r|, d)
  {
    var r := out.records;
    RestShape(out, sent, succeeds);
    FlattenChunks(r[..Full(|r|)]);
    FlattenChunks(r);
  }

  /** With users left over and their INSERT failing, the table keeps the full batches and the response is 500. */
  lemma FinishedRestFailed(out: Outcome, sent: nat, succeeds: nat -> bool, d: map<Bucket, Cell>, t0: seq<User>)
    requires !out.failed && out.records[Full(|out.records|)..] != []
    requires var full := Chunks(out.records[..Full(|out.records|)]);
      Committed(full, sent, succeeds) == |full| && !succeeds(sent + |full|)
    ensures var r := out.records;
      var full := Chunks(r[..Full(|r|)]);
      var batches := Attempted(out);
      var m := Committed(batches, sent, succeeds);
      && t0 + Flatten(full[..|full|]) == t0 + Flatten(batches[..m])
      && Verdict(out, batches, m, d) == ServerError(FinalInsert)
  {
    RestShape(out, sent, succeeds);
  }

  /**
   * The cases of the residual flush gathered in one place: whether the remainder is empty, written
   * or refused, the table, the statement log and the response agree with the batch-level account.
   */
  lemma Finished(out: Outcome, sent: nat, succeeds: nat -> bool, d: map<Bucket, Cell>, t0: seq<User>, q0: seq<Query>)
    requires !out.failed && |q0| == sent
    requires var full := Chunks(out.records[..Full(|out.records|)]);
      Committed(full, sent, succeeds) == |full|
    ensures var r := out.records;
      var full := Chunks(r[..Full(|r|)]);
      var rest := r[Full(|r|)..];
      var ok := rest == [] || succeeds(|q0 + Statements(full[..|full|])|);
      var batches := Attempted(out);
      var m := Committed(batches, sent, succeeds);
      && Full(|r|) + |rest| == |r|
      && t0 + Flatten(batches[..m]) == t0 + Flatten(full[..|full|]) + (if ok then rest else [])
      && q0 + Statements(batches[..Tried(m, |batches|)])
         == q0 + Statements(full[..|full|]) + (if rest == [] then [] else [Statement(rest)])
      && (ok ==> t0 + Flatten(batches[..m]) == t0 + r)
      && Verdict(out, batches, m, d)
         == (if !ok then ServerError(FinalInsert) else if r == [] then BadRequest(NoRecords) else Done(|r|, d))
  {
    var r := out.records;
    if r[Full(|r|)..] == [] {
      FinishedEven(out, sent, succeeds, d, t0, q0);
    } else {
      FinishedRestSent(out, sent, succeeds, q0);
      if succeeds(sent + |Chunks(r[..Full(|r|)])|) {
        FinishedRestDone(out, sent, succeeds, d, t0);
      } else {
        FinishedRestFailed(out, sent, succeeds, d, t0);
      }
    }
  }

  /**
   * The end of uploadCsv once the stream ended normally and every full batch was written:
   * the residual flush, the check that some user was yielded, and the age report.
   */
  method Finish(loader: BatchLoader, records: seq<User>, ghost t0: seq<User>, ghost q0: seq<Query>)
    returns (response: Response)
    requires var full := Chunks(records[..Full(|records|)]);
      && loader.batch == records[Full(|records|)..] && loader.insertedCount == Full(|records|)
      && loader.parsedAny == (|records| > 0)
      && loader.db.table == t0 + Flatten(full[..|full|])
      && loader.db.inserts == q0 + Statements(full[..|full|])
      && Committed(full, |q0|, loader.db.insertSucceeds) == |full|
    modifies loader, loader.db
    ensures var out := Outcome(records, false);
      var batches := Attempted(out);
      var m := Committed(batches, |q0|, loader.db.insertSucceeds);
      && loader.db.table == t0 + Flatten(batches[..m])
      && loader.db.inserts == q0 + Statements(batches[..Tried(m, |batches|)])
      && response == Verdict(out, batches, m, Report(loader.db.table, loader.db.selectSucceeds))
  {
    var db := loader.db;
    ghost var out := Outcome(records, false);
    ghost var d := Report(t0 + records, db.selectSucceeds);
    Finished(out, |q0|, db.insertSucceeds, d, t0, q0);
    var ok := loader.FlushRest();
    if !ok {
      return ServerError(FinalInsert);
    }
    if !loader.parsedAny {
      return BadRequest(NoRecords);
    }
    var ages := db.SelectAges();
    var distribution := AgeDistribution(ages);
    return Done(loader.insertedCount, distribution);
  }

  method UploadCsv(filePath: string, lines: seq<string>, readError: bool, db: Database) returns (response: Response)
    modifies db
    ensures filePath == "" ==> response == BadRequest(NoPath) && db.table == old(db.table) && db.inserts == old(db.inserts)
    ensures filePath != "" ==>
      var out := ReadOutcome(lines, readError);
      var batches := Attempted(out);
      var m := Committed(batches, |old(db.inserts)|, db.insertSucceeds);
      && db.table == old(db.table) + Flatten(batches[..m])
      && db.inserts == old(db.inserts) + Statements(batches[..Tried(m, |batches|)])
      && response == Verdict(out, batches, m, Report(db.table, db.selectSucceeds))
  {
    if filePath == "" {
      return BadRequest(NoPath);
    }
    var records, failed := StreamParseCsv(lines);
    failed := failed || readError;
    ghost var out := Outcome(records, failed);
    var loader := new BatchLoader(db);
    var ok := PushAll(loader, records);
    if !ok {
      EarlyStop(out, |old(db.inserts)|, db.insertSucceeds, Report(db.table, db.selectSucceeds));
      return ServerError(ParseOrRead);
    }
    if failed {
      StreamFailed(out, |old(db.inserts)|, db.insertSucceeds, Report(db.table, db.selectSucceeds));
      return ServerError(ParseOrRead);
    }
    response := Finish(loader, records, old(db.table), old(db.inserts));
  }

  /**
   * What an upload leaves in the table is the start of the yielded users: the first m full
   * batches when the m+1-th INSERT failed, every full batch when the stream failed, and all
   * of them otherwise.
   */
  lemma WrittenIsPrefix(out: Outcome, sent: nat, succeeds: nat -> bool)
    ensures var batches := Attempted(out);
      var m := Committed(batches, sent, succeeds);
      && (m < |batches| ==> m * BatchSize < |out.records| && Flatten(batches[..m]) == out.records[..m * BatchSize])
      && (m == |batches| ==>
            Flatten(batches[..m]) == if out.failed then out.records[..Full(|out.records|)] else out.records)
  {
    var batches := Attempted(out);
    var m := Committed(batches, sent, succeeds);
    var r := out.records;
    var base := if out.failed then r[..Full(|r|)] else r;
    assert batches == Chunks(base);
    if m < |batches| {
      ChunkStart(base, m);
      FlattenChunksPrefix(base, m);
      assert base[..m * BatchSize] == r[..m * BatchSize];
    } else {
      assert batches[..m] == batches;
      FlattenChunks(base);
    }
  }

  /**
   * The upload answers 200 exactly when the stream ended normally, yielded at least one user
   * and every INSERT succeeded; it then reports every user as inserted, the table has grown by
   * exactly those users in order, and one INSERT was sent per started batch of 500.
   */
  lemma UploadDoneIff(out: Outcome, sent: nat, succeeds: nat -> bool, d: map<Bucket, Cell>)
    ensures var batches := Attempted(out);
      var m := Committed(batches, sent, succeeds);
      var v := Verdict(out, batches, m, d);
      && (v.Done? <==> !out.failed && out.records != [] && m == |batches|)
      && (v.Done? ==>
            && v.recordsInserted == |out.records| && v.distribution == d
            && Flatten(batches[..m]) == out.records
            && Tried(m, |batches|) == |batches|
            && |batches| == (|out.records| + BatchSize - 1) / BatchSize)
  {
    var batches := Attempted(out);
    var m := Committed(batches, sent, succeeds);
    if !out.failed && m == |batches| {
      WrittenIsPrefix(out, sent, succeeds);
      ChunkCount(out.records);
    }
  }

  /**
   * The error answers: a failure of the stream or of the file read is always 500 "CSV parsing
   * or reading failed"; 500 "Database insert failed (final batch)" is the failure of the INSERT
   * of the last, partial batch; 400 "No valid records found in CSV" is a stream that ended
   * normally with no user, and then no INSERT was sent.
   */
  lemma FailureResponses(out: Outcome, sent: nat, succeeds: nat -> bool, d: map<Bucket, Cell>)
    ensures var batches := Attempted(out);
      var m := Committed(batches, sent, succeeds);
      var v := Verdict(out, batches, m, d);
      && (out.failed ==> v == ServerError(ParseOrRead))
      && (v == ServerError(FinalInsert) <==>
            !out.failed && |out.records| % BatchSize != 0 && m == |batches| - 1)
      && (v == BadRequest(NoRecords) <==> !out.failed && out.records == [])
      && (v == BadRequest(NoRecords) ==> batches == [])
  {
    var batches := Attempted(out);
    var m := Committed(batches, sent, succeeds);
    if !out.failed && |out.records| % BatchSize != 0 {
      assert out.records != [];
      assert batches != [];
    }
  }
}
