/**
 This module models a changeset: an ordered record of operations that
 `Execute` applies, in append order, to a database table in one transform,
 followed by a cache invalidation.
 */
module Changesets {
  import opened Operations

  /** The table after running `ops` left to right on `t`: each operation sees the effects of the earlier ones. */
  ghost function ApplyAll<R>(ops: seq<Operation<R>>, t: map<int, R>): map<int, R>
    decreases |ops|
  {
    if ops == [] then t
    else ops[|ops| - 1].Apply(ApplyAll(ops[..|ops| - 1], t))
  }

  /** The transform `Execute` hands to the database: perform each recorded operation on the same table, in order. */
  method Updater<R>(record: seq<Operation<R>>, table: Table<R>)
    modifies table
    ensures table.docs == ApplyAll(record, old(table.docs))
  {
    for i := 0 to |record|
      invariant table.docs == ApplyAll(record[..i], old(table.docs))
    {
      assert record[..i + 1][..i] == record[..i];
      record[i].Perform(table);
    }
    assert record[..|record|] == record;
  }

  /** The two calls a changeset makes on its database. */
  datatype Call = UpdateTableCall | ClearCacheCall

  /**
   The database collaborator, reduced to what a changeset relies on: a table
   of documents that a transform replaces, and the trace of calls it received.
   */
  class Database<R> {
    var docs: map<int, R>
    var calls: seq<Call>

    constructor (docs: map<int, R>)
      ensures this.docs == docs && calls == []
    {
      this.docs := docs;
      calls := [];
    }

    /**
     `_update_table(updater)`: hand a working copy of the table to the
     transform (given by the operations it closes over) and store the result.
     */
    method UpdateTable(updater: seq<Operation<R>>)
      modifies this
      ensures docs == ApplyAll(updater, old(docs))
      ensures calls == old(calls) + [UpdateTableCall]
    {
      var table := new Table(docs);
      Updater(updater, table);
      docs := table.docs;
      calls := calls + [UpdateTableCall];
    }

    /** `clear_cache()`: the table is untouched; only the call is recorded. */
    method ClearCache()
      modifies this
      ensures docs == old(docs)
      ensures calls == old(calls) + [ClearCacheCall]
    {
      calls := calls + [ClearCacheCall];
    }
  }

  class Changeset<R> {
    const db: Database<R>
    var record: seq<Operation<R>>

    /** A new changeset is bound to `database` and has recorded nothing. */
    constructor (database: Database<R>)
      ensures db == database && record == []
    {
      db := database;
      record := [];
    }

    /** Records `change` after every operation recorded so far. */
    method Append(change: Operation<R>)
      modifies this
      ensures record == old(record) + [change]
    {
      record := record + [change];
    }

    /**
     Applies every recorded operation, in order, in one table update, then
     clears the database's cache. The record is kept, so a second call
     applies the whole sequence again.
     */
    method Execute()
      modifies db
      ensures record == old(record)
      ensures db.docs == ApplyAll(record, old(db.docs))
      ensures db.calls == old(db.calls) + [UpdateTableCall, ClearCacheCall]
    {
      db.UpdateTable(record);
      db.ClearCache();
    }
  }

  /** Running no operation leaves the table as it is. */
  lemma ApplyNothing<R>(t: map<int, R>)
    ensures ApplyAll([], t) == t
  {
  }

  /** Sequential composition: running `first + second` is running `first`, then `second` on its result. */
  lemma {:induction false} ApplyAllAppend<R>(first: seq<Operation<R>>, second: seq<Operation<R>>, t: map<int, R>)
    ensures ApplyAll(first + second, t) == ApplyAll(second, ApplyAll(first, t))
    decreases |second|
  {
    if second == [] {
      assert first + second == first;
    } else {
      var init := second[..|second| - 1];
      ApplyAllAppend(first, init, t);
      assert (first + second)[..|first + second| - 1] == first + init;
    }
  }

  /** The first recorded operation runs first, and the rest run on its result. */
  lemma ApplyAllFirst<R>(op: Operation<R>, rest: seq<Operation<R>>, t: map<int, R>)
    ensures ApplyAll([op] + rest, t) == ApplyAll(rest, op.Apply(t))
  {
    ApplyAllAppend([op], rest, t);
    assert ApplyAll([op], t) == op.Apply(ApplyAll([], t));
  }

  /** Executing the same record twice is executing the record doubled. */
  lemma ExecuteTwiceAppliesTwice<R>(record: seq<Operation<R>>, t: map<int, R>)
    ensures ApplyAll(record, ApplyAll(record, t)) == ApplyAll(record + record, t)
  {
    ApplyAllAppend(record, record, t);
  }

  /** Execution is not idempotent: a recorded insert, run twice on an empty table, stores its item twice. */
  lemma ExecuteNotIdempotent<R>(doc: R)
    ensures ApplyAll([InsertMultiple([doc])], map[]) == map[1 := doc]
    ensures ApplyAll([InsertMultiple([doc])], ApplyAll([InsertMultiple([doc])], map[])) == map[1 := doc, 2 := doc]
  {
    var once := map[1 := doc];
    NewDocsShape(0, [doc]);
    assert NewDocs(0, [doc]) == once;
    assert Max(once.Keys) == 1;
    NewDocsShape(1, [doc]);
    assert NewDocs(1, [doc]) == map[2 := doc];
  }

  /** Within one execute, a document inserted first is removed by a later Remove whose query accepts it. */
  lemma InsertThenRemoveLeavesEmpty<R>(doc: R, query: R -> bool)
    requires query(doc)
    ensures ApplyAll([InsertMultiple([doc]), Remove(query)], map[]) == map[]
  {
    var insert, remove := InsertMultiple([doc]), Remove(query);
    NewDocsShape(0, [doc]);
    assert NewDocs(0, [doc]) == map[1 := doc];
    assert ApplyAll([insert], map[]) == map[1 := doc] by {
      assert ApplyAll([insert], map[]) == insert.Apply(map[]);
    }
    assert [insert, remove][..1] == [insert];
    assert Removed(map[1 := doc], query, {}) == map[];
  }

  /** The same outcome through the objects: executing twice inserts twice and calls the database four times. */
  method ReExecution<R>(doc: R) returns (first: map<int, R>, second: map<int, R>, calls: seq<Call>)
    ensures first == map[1 := doc]
    ensures second == map[1 := doc, 2 := doc]
    ensures calls == [UpdateTableCall, ClearCacheCall, UpdateTableCall, ClearCacheCall]
  {
    var db := new Database(map[]);
    var changes := new Changeset(db);
    changes.Append(InsertMultiple([doc]));
    ExecuteNotIdempotent(doc);
    changes.Execute();
    first := db.docs;
    changes.Execute();
    second := db.docs;
    calls := db.calls;
  }
}
