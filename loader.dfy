/**
 * The batch accumulator of uploadCsv: every yielded user is pushed onto the batch; when the
 * batch reaches 500 users it is written with one INSERT and emptied, and whatever remains
 * at the end of the stream is written with one last INSERT.
 */
module Loader {
  import opened Wrappers
  import opened Rows
  import opened Sql
  import opened Store

  const BatchSize: nat := 500

  /** s cut into consecutive batches of BatchSize users; only the last may be shorter. */
  function Chunks<T>(s: seq<T>): seq<seq<T>>
    decreases |s|
  {
    if s == [] then []
    else if |s| <= BatchSize then [s]
    else [s[..BatchSize]] + Chunks(s[BatchSize..])
  }

  /** The pieces laid end to end. */
  function Flatten<T>(pieces: seq<seq<T>>): seq<T> {
    if pieces == [] then [] else pieces[0] + Flatten(pieces[1..])
  }

  lemma {:induction false} FlattenAppend<T>(a: seq<seq<T>>, b: seq<seq<T>>)
    ensures Flatten(a + b) == Flatten(a) + Flatten(b)
  {
    if a != [] {
      assert (a + b)[1..] == a[1..] + b;
      FlattenAppend(a[1..], b);
    } else {
      assert a + b == b;
    }
  }

  /** Laying the batches end to end gives the sequence back, in order. */
  lemma {:induction false} FlattenChunks<T>(s: seq<T>)
    ensures Flatten(Chunks(s)) == s
    decreases |s|
  {
    if |s| > BatchSize {
      FlattenChunks(s[BatchSize..]);
      assert ([s[..BatchSize]] + Chunks(s[BatchSize..]))[1..] == Chunks(s[BatchSize..]);
    }
  }

  /** ceil(|s| / 500) batches: 500 users give one INSERT, 501 give two. */
  lemma {:induction false} ChunkCount<T>(s: seq<T>)
    ensures |Chunks(s)| == (|s| + BatchSize - 1) / BatchSize
    decreases |s|
  {
    if |s| > BatchSize {
      ChunkCount(s[BatchSize..]);
    }
  }

  /** Every batch holds between 1 and 500 users and every batch but the last holds exactly 500. */
  lemma {:induction false} ChunkSizes<T>(s: seq<T>)
    ensures forall j :: 0 <= j < |Chunks(s)| ==> 1 <= |Chunks(s)[j]| <= BatchSize
    ensures forall j :: 0 <= j < |Chunks(s)| - 1 ==> |Chunks(s)[j]| == BatchSize
    decreases |s|
  {
    if |s| > BatchSize {
      ChunkSizes(s[BatchSize..]);
      var c := Chunks(s);
      assert c[1..] == Chunks(s[BatchSize..]);
      forall j | 1 <= j < |c| ensures c[j] == Chunks(s[BatchSize..])[j - 1] {
      }
    }
  }

  /** Batch m starts at user m * 500, inside the sequence, and runs to user (m + 1) * 500 or the end. */
  lemma {:induction false} ChunkStart<T>(s: seq<T>, m: nat)
    requires m < |Chunks(s)|
    ensures m * BatchSize < |s|
    ensures Chunks(s)[m] == s[m * BatchSize .. if (m + 1) * BatchSize <= |s| then (m + 1) * BatchSize else |s|]
    decreases m
  {
    if m > 0 {
      var t := s[BatchSize..];
      assert Chunks(s) == [s[..BatchSize]] + Chunks(t);
      ChunkStart(t, m - 1);
      var e := if m * BatchSize <= |t| then m * BatchSize else |t|;
      assert Chunks(s)[m] == Chunks(t)[m - 1] == t[(m - 1) * BatchSize .. e];
      assert (m - 1) * BatchSize + BatchSize == m * BatchSize;
      assert t[(m - 1) * BatchSize .. e] == s[m * BatchSize .. e + BatchSize];
    }
  }

  /** The first m batches, when more follow, hold the first m * 500 users. */
  lemma {:induction false} FlattenChunksPrefix<T>(s: seq<T>, m: nat)
    requires m * BatchSize < |s|
    ensures m < |Chunks(s)|
    ensures Flatten(Chunks(s)[..m]) == s[..m * BatchSize]
    decreases m
  {
    if m > 0 {
      var c := Chunks(s);
      var tail := Chunks(s[BatchSize..]);
      assert c == [s[..BatchSize]] + tail;
      FlattenChunksPrefix(s[BatchSize..], m - 1);
      assert c[..m][1..] == tail[..m - 1];
      assert s[..m * BatchSize] == s[..BatchSize] + s[BatchSize..][..(m - 1) * BatchSize];
    }
  }

  /** A whole number of batches followed by more users: the batches of the two parts, in turn. */
  lemma {:induction false} ChunksAppend<T>(s: seq<T>, t: seq<T>)
    requires |s| % BatchSize == 0
    ensures Chunks(s + t) == Chunks(s) + Chunks(t)
    decreases |s|
  {
    if s == [] {
      assert s + t == t;
    } else if |s| == BatchSize {
      if t == [] {
        assert s + t == s;
      } else {
        assert (s + t)[..BatchSize] == s;
        assert (s + t)[BatchSize..] == t;
      }
    } else {
      assert (s + t)[..BatchSize] == s[..BatchSize];
      assert (s + t)[BatchSize..] == s[BatchSize..] + t;
      ChunksAppend(s[BatchSize..], t);
    }
  }

  /**
   * The insertBatch helper of uploadCsv together with the variables its loop updates: the
   * pending batch, the count of users written, and whether any user was yielded.
   */
  class BatchLoader {
    var batch: seq<User>
    var insertedCount: nat
    var parsedAny: bool
    const db: Database

    constructor (db: Database)
      ensures batch == [] && insertedCount == 0 && !parsedAny && this.db == db
    {
      batch := [];
      insertedCount := 0;
      parsedAny := false;
      this.db := db;
    }

    /** insertBatch: nothing is sent for an empty batch; otherwise one INSERT, which may fail. */
    method InsertBatch(batchToInsert: seq<User>) returns (ok: bool)
      modifies db
      ensures batchToInsert == [] ==> ok && db.table == old(db.table) && db.inserts == old(db.inserts)
      ensures batchToInsert != [] ==>
        && db.inserts == old(db.inserts) + [Statement(batchToInsert)]
        && ok == db.insertSucceeds(|old(db.inserts)|)
        && db.table == old(db.table) + (if ok then batchToInsert else [])
    {
      var query, _ := BuildInsert(batchToInsert);
      if query.None? {
        return true;
      }
      DecodeParams(batchToInsert);
      ok := db.Insert(query.value);
    }

    /**
     * One iteration of the for-await loop: the user joins the batch, and a batch that reaches
     * 500 is written; the count grows only once the INSERT has returned normally.
     */
    method Push(user: User) returns (ok: bool)
      requires |batch| < BatchSize
      modifies this, db
      ensures parsedAny
      ensures |old(batch)| + 1 < BatchSize ==>
        && ok && batch == old(batch) + [user] && insertedCount == old(insertedCount)
        && db.table == old(db.table) && db.inserts == old(db.inserts)
      ensures |old(batch)| + 1 == BatchSize ==>
        && db.inserts == old(db.inserts) + [Statement(old(batch) + [user])]
        && ok == db.insertSucceeds(|old(db.inserts)|)
        && db.table == old(db.table) + (if ok then old(batch) + [user] else [])
        && batch == (if ok then [] else old(batch) + [user])
        && insertedCount == old(insertedCount) + (if ok then BatchSize else 0)
    {
      parsedAny := true;
      batch := batch + [user];
      ok := true;
      if |batch| >= BatchSize {
        ok := InsertBatch(batch);
        if !ok {
          return;
        }
        insertedCount := insertedCount + |batch|;
        batch := [];
      }
    }

    /** The residual flush after the stream ends: only a non-empty batch is written. */
    method FlushRest() returns (ok: bool)
      modifies this, db
      ensures parsedAny == old(parsedAny) && batch == old(batch)
      ensures old(batch) == [] ==>
        && ok && insertedCount == old(insertedCount)
        && db.table == old(db.table) && db.inserts == old(db.inserts)
      ensures old(batch) != [] ==>
        && db.inserts == old(db.inserts) + [Statement(old(batch))]
        && ok == db.insertSucceeds(|old(db.inserts)|)
        && db.table == old(db.table) + (if ok then old(batch) else [])
        && insertedCount == old(insertedCount) + (if ok then |old(batch)| else 0)
    {
      ok := true;
      if |batch| > 0 {
        ok := InsertBatch(batch);
        if ok {
          insertedCount := insertedCount + |batch|;
        }
      }
    }
  }
}
