# tinyrecord, modelled in Dafny

tinyrecord adds transactions to a TinyDB table. A caller records operations
in a `Changeset`: `InsertMultiple`, `UpdateCallable` and `Remove`. A call to
`execute` then applies them all, in the order they were appended, inside one
`_update_table` transform, and clears the table's cache afterwards.

The model has two modules, one per source file:

- `operations.dfy` (module `Operations`) models `tinyrecord/operations.py`.
  - The dict a transform receives is the class `Table<R>`. Its field
    `docs: map<int, R>` maps document ids to documents of an opaque type `R`.
  - An operation is the closed datatype `Operation<R>` with three variants.
    `UpdateCallable` and `Remove` have the source's defaults:
    `query := NullQuery` and `docIds := {}`.
  - Each variant's `perform` is an imperative method whose loop rewrites
    `table.docs`. It is proved equal to a ghost specification function:
    `Inserted`, `Updated` or `Removed`.
  - Lemmas state what those functions guarantee.
- `changeset.dfy` (module `Changesets`) models `tinyrecord/changeset.py`.
  - `Changeset<R>` is a class holding its database handle `db` and its
    `record: seq<Operation<R>>`.
  - `Updater` is the inner `updater` loop. It is proved to compute the left
    fold `ApplyAll` of the recorded operations.
  - TinyDB's side is the class `Database<R>`: a table plus a trace of the
    `UpdateTableCall` / `ClearCacheCall` calls it received.

`UpdateTable` receives the list of operations that the `updater` closure
closes over, because Dafny cannot pass a method as a value. It runs `Updater`
on a working copy of its table and stores the result.

## Model

| member | source | states |
|---|---|---|
| `Operations.NullQueryMatchesNothing` | tinyrecord/operations.py:4-9 | `null_query` rejects every document, so `UpdateCallable(f)` and `Remove()` with their defaults leave any table unchanged |
| `Operations.MatchingIsDisjunction` | tinyrecord/operations.py:58-75 | a listed id is updated or removed even when the query is `null_query`; a query match is updated or removed even when `doc_ids` is empty |
| `Operations.Max` | tinyrecord/operations.py:36 | the chosen id is in the set, and no id in the set exceeds it |
| `Operations.MaxId` | tinyrecord/operations.py:36 | `max(table)` loops over the ids of a non-empty table and returns the largest one, which equals `Max` |
| `Operations.LastIdIsMax` | tinyrecord/operations.py:36 | the id that insertion counts up from is at least every present id; it is 0 for an empty table and an existing id otherwise, so gaps below it are never reused |
| `Operations.NewDocsShape` | tinyrecord/operations.py:37-39 | counting up from `last` creates exactly the ids `last+1` to `last+n`, with the i-th item under `last+1+i`, and `n` entries |
| `Operations.InsertAssignsConsecutiveIds` | tinyrecord/operations.py:36-39 | after `InsertMultiple`, the i-th item is stored under `LastId(t)+1+i`, an id that was not in the table; the new id set is the old one plus exactly that range |
| `Operations.InsertPreservesExisting` | tinyrecord/operations.py:36-39 | every old document keeps its id and value, and every new id is larger than every old id |
| `Operations.InsertGrowsByLength` | tinyrecord/operations.py:37-39 | the table grows by exactly the number of items inserted |
| `Operations.UpdateKeepsIds` | tinyrecord/operations.py:55-59 | `UpdateCallable` keeps the id set and the size; a document whose id is listed or that the query accepts now holds `mutator` of its old value; every other document is unchanged |
| `Operations.RemoveDeletesExactlyMatches` | tinyrecord/operations.py:73-76 | after `Remove`, no remaining id is listed and no remaining document satisfies the query; every non-matching document survives unchanged; the id set is the old one minus the matched ids |
| `Operations.RemoveShrinksByMatches` | tinyrecord/operations.py:73-76 | the table shrinks by exactly the number of matched documents |
| `Operations.RemoveIdempotent` | tinyrecord/operations.py:73-76 | removing again with the same query and ids is a no-op |
| `Operations.UpdateByQueryExample` | tinyrecord/operations.py:55-59 | with query `n > 5` and mutator `n + 1`, `{1: 5, 2: 9}` becomes `{1: 5, 2: 10}` |
| `Operations.RemoveByIdExample` | tinyrecord/operations.py:73-76 | removing id 1 from `{1: x1, 2: x2}` leaves `{2: x2}` |
| `Operations.Table.constructor` | tinyrecord/changeset.py:21 | a table handed to a transform starts with the given documents |
| `Operations.Operation.Perform` | tinyrecord/operations.py:12-21 | each variant's `perform` rewrites the table to that variant's specification (`Inserted`, `Updated` or `Removed`) |
| `Operations.PerformInsertMultiple` | tinyrecord/operations.py:35-39 | counts up from `max(table)`, or from 0 for an empty table, and stores each item under the next id; the result is `Inserted(old table, items)` |
| `Operations.PerformUpdateCallable` | tinyrecord/operations.py:55-59 | visits every id once and replaces each matching document by `mutator` of it; the result is `Updated(old table, ...)` |
| `Operations.PerformRemove` | tinyrecord/operations.py:73-76 | goes over a snapshot of the ids and deletes each matching document; the result is `Removed(old table, ...)` |
| `Changesets.Updater` | tinyrecord/changeset.py:21-23 | performs the recorded operations on one table in order; the result is the left fold `ApplyAll(record, old table)` |
| `Changesets.Database.UpdateTable` | tinyrecord/changeset.py:25 | the database's table becomes the transform's result, and exactly one update call is appended to its trace |
| `Changesets.Database.ClearCache` | tinyrecord/changeset.py:26 | the table is unchanged, and exactly one cache-clear call is appended to the trace |
| `Changesets.Changeset.constructor` | tinyrecord/changeset.py:9-11 | a new changeset keeps the given database handle, and its record is empty |
| `Changesets.Changeset.Append` | tinyrecord/changeset.py:28-35 | the operation is added after all earlier ones, which stay in place and in order |
| `Changesets.Changeset.Execute` | tinyrecord/changeset.py:13-26 | the record is unchanged; the table becomes the left fold of the recorded operations; the trace grows by exactly one update call, then one cache-clear call, whatever the number of operations |
| `Changesets.ApplyNothing` | tinyrecord/changeset.py:21-23 | executing an empty record leaves the table unchanged |
| `Changesets.ApplyAllAppend` | tinyrecord/changeset.py:21-23 | running `first + second` equals running `first`, then `second` on its result (sequential composition) |
| `Changesets.ApplyAllFirst` | tinyrecord/changeset.py:21-23 | the first recorded operation runs first, and later ones see its effects |
| `Changesets.ExecuteTwiceAppliesTwice` | tinyrecord/changeset.py:13-20 | executing the same record twice equals executing the record concatenated with itself |
| `Changesets.ExecuteNotIdempotent` | tinyrecord/changeset.py:13-20 | one recorded insert of `d` on an empty table gives `{1: d}` when executed once and `{1: d, 2: d}` when executed twice |
| `Changesets.InsertThenRemoveLeavesEmpty` | tinyrecord/changeset.py:21-23 | in one execute on an empty table, an insert followed by a `Remove` whose query accepts the document leaves the table empty |
| `Changesets.ReExecution` | tinyrecord/changeset.py:13-26 | through the classes: two `Execute` calls on one changeset give `{1: d}` and then `{1: d, 2: d}`, with the trace update, clear, update, clear |

## Left out

- TinyDB's storage, persistence, caching and locking behind `_update_table` and `clear_cache`. `Database` only stores the table and records the calls. The atomicity of the update is TinyDB's concern and is not modelled.
- Queries and mutators are pure total functions (`R -> bool`, `R -> R`). The model does not capture Python callables that raise exceptions or have side effects.
- `UpdateCallable` mutates a document object in place. The model stores the mutator's result under the same id instead. If the same document object is stored under two ids, mutating it through one id changes the other too. The model does not capture that aliasing. `InsertMultiple` also stores the very objects of its iterable (tinyrecord/operations.py:39). An `UpdateCallable` in the same changeset therefore also mutates the items the recorded `InsertMultiple` holds. A later insert of those items, or a re-execution, stores them already mutated. The model re-inserts the original values.
- The iteration order of the dict is not modelled. `max`, the update loop and the remove loop visit the ids of a set in an unspecified order. None of the three results depends on that order.
- The iterable passed to `InsertMultiple` is a finite `seq<R>`. Laziness and infinite iterables are not modelled. A one-shot iterator, such as a generator, is used up by the first `perform` (tinyrecord/operations.py:37), so a second `execute` inserts nothing from it. `ExecuteNotIdempotent`, `ExecuteTwiceAppliesTwice` and `ReExecution` describe only iterables that can be iterated again, such as lists.
- `ExecuteTwiceAppliesTwice` matches the source only when no recorded update mutates a record that a recorded insert holds, for the aliasing reason above.
- `Database.UpdateTable` and `Database.ClearCache` never fail. In the source, an exception from `_update_table` leaves `execute` before `clear_cache` is called (tinyrecord/changeset.py:25-26). The model does not capture that path.
- `Changeset.Execute`: its promise of one update call followed by one cache-clear call holds in the source only when `_update_table` returns. The model does not state the failure case, in which only the update is attempted and the exception propagates.
- The `abc.ABC` base class and its abstract `perform` are replaced by the closed datatype `Operation`. In Python, the `__init__` of `UpdateCallable` and of `Remove` converts `doc_ids` with `set(...)` (tinyrecord/operations.py:53, 71). In the model, the `docIds` field is already a `set<int>`.
- The `updater` closure is represented by the operation list it closes over, because Dafny cannot pass a method as a value.
