/**
 This module models the three mutations a changeset can record: inserting a
 batch of documents, updating the matching documents, and removing them.
 A table maps integer document ids to documents of an opaque type `R`.
 */
module Operations {

  /** The mutable dictionary an operation receives: document id to document. */
  class Table<R> {
    var docs: map<int, R>

    constructor (docs: map<int, R>)
      ensures this.docs == docs
    {
      this.docs := docs;
    }
  }

  /** The default query: it rejects every document. */
  function NullQuery<R>(doc: R): bool
  {
    false
  }

  /** The matching rule shared by UpdateCallable and Remove: the id is listed OR the query accepts the document. */
  predicate Matches<R>(query: R -> bool, docIds: set<int>, key: int, doc: R)
  {
    key in docIds || query(doc)
  }

  /** A non-empty set of ids has an element to pick. */
  lemma NonEmpty(keys: set<int>)
    requires keys != {}
    ensures exists k :: k in keys
  {
    if forall k :: k !in keys {
      assert false;
    }
  }

  /** The largest element of a non-empty set of ids. */
  ghost function Max(keys: set<int>): (m: int)
    requires keys != {}
    ensures m in keys
    ensures forall k :: k in keys ==> k <= m
  {
    NonEmpty(keys);
    var k :| k in keys;
    assert forall j :: j in keys ==> j == k || j in keys - {k};
    if keys - {k} == {} then k
    else
      var rest := Max(keys - {k});
      if k < rest then rest else k
  }

  /** The id InsertMultiple counts up from: the largest id present, or 0 for an empty table. */
  ghost function LastId<R>(t: map<int, R>): int
  {
    if t == map[] then 0 else Max(t.Keys)
  }

  /** The documents added by counting up from `last`: the i-th item (from 0) under id `last + 1 + i`. */
  ghost function NewDocs<R>(last: int, items: seq<R>): map<int, R>
    decreases |items|
  {
    if items == [] then map[]
    else NewDocs(last, items[..|items| - 1])[last + |items| := items[|items| - 1]]
  }

  /** The table after InsertMultiple. */
  ghost function Inserted<R>(t: map<int, R>, items: seq<R>): map<int, R>
  {
    t + NewDocs(LastId(t), items)
  }

  /** The table after UpdateCallable: matching documents replaced by `mutator` of themselves. */
  ghost function Updated<R>(t: map<int, R>, mutator: R -> R, query: R -> bool, docIds: set<int>): map<int, R>
  {
    map k | k in t :: if Matches(query, docIds, k, t[k]) then mutator(t[k]) else t[k]
  }

  /** The ids of the documents of `t` that match. */
  ghost function MatchedIds<R>(t: map<int, R>, query: R -> bool, docIds: set<int>): set<int>
  {
    set k | k in t && Matches(query, docIds, k, t[k])
  }

  /** The table after Remove: the non-matching documents only. */
  ghost function Removed<R>(t: map<int, R>, query: R -> bool, docIds: set<int>): map<int, R>
  {
    map k | k in t && !Matches(query, docIds, k, t[k]) :: t[k]
  }

  /** One recorded mutation. `query` defaults to NullQuery and `docIds` to no ids. */
  datatype Operation<!R> =
    | InsertMultiple(iterable: seq<R>)
    | UpdateCallable(mutator: R -> R, query: R -> bool := NullQuery, docIds: set<int> := {})
    | Remove(query: R -> bool := NullQuery, docIds: set<int> := {})
  {
    /** What `Perform` makes of a table. */
    ghost function Apply(t: map<int, R>): map<int, R>
    {
      match this
      case InsertMultiple(items) => Inserted(t, items)
      case UpdateCallable(mutator, query, docIds) => Updated(t, mutator, query, docIds)
      case Remove(query, docIds) => Removed(t, query, docIds)
    }

    /** Mutates `table` in place according to the variant. */
    method Perform(table: Table<R>)
      modifies table
      ensures table.docs == Apply(old(table.docs))
    {
      match this
      case InsertMultiple(items) => PerformInsertMultiple(items, table);
      case UpdateCallable(mutator, query, docIds) => PerformUpdateCallable(mutator, query, docIds, table);
      case Remove(query, docIds) => PerformRemove(query, docIds, table);
    }
  }

  /** `max(table)`: the largest id of a non-empty table. */
  method MaxId(keys: set<int>) returns (m: int)
    requires keys != {}
    ensures m in keys
    ensures forall k :: k in keys ==> k <= m
    ensures m == Max(keys)
  {
    NonEmpty(keys);
    m :| m in keys;
    var rest := keys - {m};
    while rest != {}
      invariant rest <= keys && m in keys
      invariant forall k :: k in keys && k !in rest ==> k <= m
      decreases rest
    {
      NonEmpty(rest);
      var k :| k in rest;
      if m < k {
        m := k;
      }
      rest := rest - {k};
    }
  }

  /** InsertMultiple.perform: count up from the largest id, storing each item under the next id. */
  method PerformInsertMultiple<R>(iterable: seq<R>, table: Table<R>)
    modifies table
    ensures table.docs == Inserted(old(table.docs), iterable)
  {
    var docId := 0;
    if table.docs != map[] {
      docId := MaxId(table.docs.Keys);
    }
    ghost var t0, last := table.docs, docId;
    assert last == LastId(t0);
    for i := 0 to |iterable|
      invariant docId == last + i
      invariant table.docs == t0 + NewDocs(last, iterable[..i])
    {
      assert iterable[..i + 1][..i] == iterable[..i];
      docId := docId + 1;
      table.docs := table.docs[docId := iterable[i]];
    }
    assert iterable[..|iterable|] == iterable;
  }

  /** UpdateCallable.perform: every matching document is replaced by `mutator` of itself. */
  method PerformUpdateCallable<R>(mutator: R -> R, query: R -> bool, docIds: set<int>, table: Table<R>)
    modifies table
    ensures table.docs == Updated(old(table.docs), mutator, query, docIds)
  {
    ghost var t0 := table.docs;
    var todo := table.docs.Keys;
    while todo != {}
      invariant todo <= t0.Keys == table.docs.Keys
      invariant forall k :: k in todo ==> table.docs[k] == t0[k]
      invariant forall k :: k in t0 && k !in todo ==>
        table.docs[k] == if Matches(query, docIds, k, t0[k]) then mutator(t0[k]) else t0[k]
      decreases todo
    {
      NonEmpty(todo);
      var key :| key in todo;
      var value := table.docs[key];
      if key in docIds || query(value) {
        table.docs := table.docs[key := mutator(value)];
      }
      todo := todo - {key};
    }
  }

  /** Remove.perform: over a snapshot of the ids, delete every matching document. */
  method PerformRemove<R>(query: R -> bool, docIds: set<int>, table: Table<R>)
    modifies table
    ensures table.docs == Removed(old(table.docs), query, docIds)
  {
    ghost var t0 := table.docs;
    var keys := table.docs.Keys;
    while keys != {}
      invariant keys <= t0.Keys
      invariant table.docs == map k | k in t0 && (k in keys || !Matches(query, docIds, k, t0[k])) :: t0[k]
      decreases keys
    {
      NonEmpty(keys);
      var key :| key in keys;
      if key in docIds || query(table.docs[key]) {
        table.docs := table.docs - {key};
      }
      keys := keys - {key};
    }
  }

  /** The default query matches nothing, so the default UpdateCallable and Remove leave every table as it is. */
  lemma NullQueryMatchesNothing<R>(t: map<int, R>, mutator: R -> R)
    ensures forall k :: k in t ==> !Matches(NullQuery, {}, k, t[k])
    ensures UpdateCallable(mutator).Apply(t) == t
    ensures Remove().Apply(t) == t
  {
  }

  /** Matching is a disjunction: a listed id matches whatever the query says, and a query match needs no listed id. */
  lemma MatchingIsDisjunction<R>(t: map<int, R>, mutator: R -> R, query: R -> bool, docIds: set<int>)
    ensures forall k :: k in t && k in docIds ==>
      Updated(t, mutator, NullQuery, docIds)[k] == mutator(t[k]) && k !in Removed(t, NullQuery, docIds)
    ensures forall k :: k in t && query(t[k]) ==>
      Updated(t, mutator, query, {})[k] == mutator(t[k]) && k !in Removed(t, query, {})
  {
  }

  /** The base id is the largest id present (so gaps below it are never reused), or 0 for an empty table. */
  lemma LastIdIsMax<R>(t: map<int, R>)
    ensures forall k :: k in t ==> k <= LastId(t)
    ensures t == map[] ==> LastId(t) == 0
    ensures t != map[] ==> LastId(t) in t
  {
  }

  /** NewDocs holds exactly the ids `last + 1` .. `last + |items|`, the i-th item under `last + 1 + i`. */
  lemma {:induction false} NewDocsShape<R>(last: int, items: seq<R>)
    ensures forall k :: k in NewDocs(last, items) <==> last < k <= last + |items|
    ensures forall i :: 0 <= i < |items| ==> NewDocs(last, items)[last + 1 + i] == items[i]
    ensures |NewDocs(last, items)| == |items|
    decreases |items|
  {
    if items != [] {
      var init := items[..|items| - 1];
      NewDocsShape(last, init);
      assert last + |items| !in NewDocs(last, init);
    }
  }

  /** InsertMultiple stores the i-th item under `LastId(t) + 1 + i`, and adds no other id. */
  lemma InsertAssignsConsecutiveIds<R>(t: map<int, R>, items: seq<R>)
    ensures forall i :: 0 <= i < |items| ==>
      LastId(t) + 1 + i !in t && LastId(t) + 1 + i in Inserted(t, items) &&
      Inserted(t, items)[LastId(t) + 1 + i] == items[i]
    ensures forall k :: k in Inserted(t, items) <==> k in t || LastId(t) < k <= LastId(t) + |items|
  {
    NewDocsShape(LastId(t), items);
    LastIdIsMax(t);
  }

  /** InsertMultiple overwrites nothing: every old document keeps its id and value, and every new id exceeds every old one. */
  lemma InsertPreservesExisting<R>(t: map<int, R>, items: seq<R>)
    ensures forall k :: k in t ==> k in Inserted(t, items) && Inserted(t, items)[k] == t[k]
    ensures forall k, j :: k in Inserted(t, items) && k !in t && j in t ==> j < k
  {
    NewDocsShape(LastId(t), items);
    LastIdIsMax(t);
  }

  /** InsertMultiple grows the table by exactly the number of items. */
  lemma InsertGrowsByLength<R>(t: map<int, R>, items: seq<R>)
    ensures |Inserted(t, items)| == |t| + |items|
  {
    var added := NewDocs(LastId(t), items);
    NewDocsShape(LastId(t), items);
    LastIdIsMax(t);
    assert t.Keys !! added.Keys;
    assert Inserted(t, items).Keys == t.Keys + added.Keys;
  }

  /** UpdateCallable keeps the id set; matching documents now hold `mutator` of their old value, the others are unchanged. */
  lemma UpdateKeepsIds<R>(t: map<int, R>, mutator: R -> R, query: R -> bool, docIds: set<int>)
    ensures Updated(t, mutator, query, docIds).Keys == t.Keys
    ensures |Updated(t, mutator, query, docIds)| == |t|
    ensures forall k :: k in t && (k in docIds || query(t[k])) ==> Updated(t, mutator, query, docIds)[k] == mutator(t[k])
    ensures forall k :: k in t && k !in docIds && !query(t[k]) ==> Updated(t, mutator, query, docIds)[k] == t[k]
  {
    assert Updated(t, mutator, query, docIds).Keys == t.Keys;
  }

  /** Remove leaves no matching document, keeps every other one unchanged, and drops exactly the matched ids. */
  lemma RemoveDeletesExactlyMatches<R>(t: map<int, R>, query: R -> bool, docIds: set<int>)
    ensures forall k :: k in Removed(t, query, docIds) ==> k !in docIds && !query(Removed(t, query, docIds)[k])
    ensures forall k :: k in t && k !in docIds && !query(t[k]) ==>
      k in Removed(t, query, docIds) && Removed(t, query, docIds)[k] == t[k]
    ensures Removed(t, query, docIds).Keys == t.Keys - MatchedIds(t, query, docIds)
  {
  }

  /** Remove shrinks the table by exactly the number of matched documents. */
  lemma RemoveShrinksByMatches<R>(t: map<int, R>, query: R -> bool, docIds: set<int>)
    ensures |Removed(t, query, docIds)| == |t| - |MatchedIds(t, query, docIds)|
  {
    var kept := Removed(t, query, docIds).Keys;
    var matched := MatchedIds(t, query, docIds);
    assert t.Keys == kept + matched;
    assert kept !! matched;
  }

  /** Removing a second time with the same query and ids changes nothing. */
  lemma RemoveIdempotent<R>(t: map<int, R>, query: R -> bool, docIds: set<int>)
    ensures Removed(Removed(t, query, docIds), query, docIds) == Removed(t, query, docIds)
  {
  }

  /**
   An update whose query accepts only the second document changes that one alone.
   Each int `v` stands for the document `{"n": v}`, and the mutator `n + 1` for an in-place `n += 1`.
   */
  lemma UpdateByQueryExample()
    ensures UpdateCallable(n => n + 1, n => n > 5).Apply(map[1 := 5, 2 := 9]) == map[1 := 5, 2 := 10]
  {
  }

  /** A remove by id alone deletes that document and keeps the other. */
  lemma RemoveByIdExample()
    ensures Remove(NullQuery, {1}).Apply(map[1 := "x1", 2 := "x2"]) == map[2 := "x2"]
  {
  }
}
