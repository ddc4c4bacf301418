/** The transaction-scoped mutation buffer of the document index
    (EsDocumentWriter). Callers stage keyed upserts, keyed deletes and
    filtered bulk operations; `Commit` applies them against the index admin
    and the bulk processor, whose answers are parameters of the model. */
module DocumentWriter {
  import opened Wrappers

  /** The Java class a document is stored under. */
  type TypeName = string
  type Key = string

  /** A staged document: the class it belongs to, whether it is a
      `Revision`, and an abstract payload standing for its JSON source. */
  datatype Doc = Doc(docType: TypeName, isRevision: bool, payload: seq<int>)

  /** A filtered bulk operation: an update-by-query with a named script, or a
      delete-by-query. */
  datatype BulkOp =
    | UpdateByQuery(docType: TypeName, filter: string, script: string)
    | DeleteByQuery(docType: TypeName, filter: string)

  /** What the index admin answered for one bulk operation: whether it
      changed documents, or that it failed with an exception. */
  datatype BulkOutcome = Applied(changed: bool) | Failed

  /** A call `Commit` makes, in order. The index and delete requests the
      bulk processor receives for one type between two flushes are grouped;
      a group records them keyed by document key. */
  datatype Call =
    | BulkCall(op: BulkOp)
    | IndexGroup(docType: TypeName, docs: map<Key, Doc>)
    | DeleteGroup(docType: TypeName, keys: set<Key>)
    | Flush
    | Refresh(docTypes: set<TypeName>)

  /** Which executor runs the bulk operations. */
  datatype Executor = DirectExecutor | FixedPool(threads: nat)

  function Max(a: nat, b: nat): nat { if a < b then b else a }
  function Min(a: nat, b: nat): nat { if a < b then a else b }

  /** A worker pool is used only when either list holds more than one
      operation; it has one thread per operation of the larger list, but
      never more than four. */
  function ExecutorFor(updates: nat, deletes: nat): (e: Executor)
    ensures e.FixedPool? <==> updates > 1 || deletes > 1
    ensures e.FixedPool? ==> 2 <= e.threads <= 4
    ensures e.FixedPool? ==> e.threads <= updates || e.threads <= deletes
    ensures e.FixedPool? ==> e.threads == 4 || (e.threads >= updates && e.threads >= deletes)
  {
    if updates > 1 || deletes > 1 then FixedPool(Min(4, Max(updates, deletes)))
    else DirectExecutor
  }

  /** A revision is sent without an id, so that the index generates one;
      every other document is sent under its staged key. */
  function RequestId(key: Key, doc: Doc): (id: Option<Key>)
    ensures id.Some? <==> !doc.isRevision
    ensures id.Some? ==> id.value == key
  {
    if doc.isRevision then None else Some(key)
  }

  // ---------------------------------------------------------------------
  // Views of the pending collections

  function RowOf(idx: map<TypeName, map<Key, Doc>>, t: TypeName): map<Key, Doc> {
    if t in idx then idx[t] else map[]
  }

  function DeletesOf(del: map<TypeName, set<Key>>, t: TypeName): set<Key> {
    if t in del then del[t] else {}
  }

  /** The staged document in table cell (t, k), if any. */
  function Cell(idx: map<TypeName, map<Key, Doc>>, t: TypeName, k: Key): Option<Doc> {
    if t in idx && k in idx[t] then Some(idx[t][k]) else None
  }

  /** `deleteOperations.containsValue(k)`: the key is staged for deletion
      under some type, not necessarily the type being indexed. */
  predicate PendingDelete(k: Key, del: map<TypeName, set<Key>>) {
    exists t :: t in del && k in del[t]
  }

  /** The upserts of one row that survive the pending deletes. */
  function Kept(row: map<Key, Doc>, del: map<TypeName, set<Key>>): map<Key, Doc> {
    map k | k in row && !PendingDelete(k, del) :: row[k]
  }

  function Elems(s: seq<TypeName>): set<TypeName> {
    set x | x in s
  }

  predicate Distinct(s: seq<TypeName>) {
    forall i, j :: 0 <= i < j < |s| ==> s[i] != s[j]
  }

  /** `order` lists each element of `s` exactly once (a hash-set iteration
      order). */
  predicate Enumerates(order: seq<TypeName>, s: set<TypeName>) {
    Distinct(order) && Elems(order) == s
  }

  // ---------------------------------------------------------------------
  // The calls of a commit, as a function of the pending state

  function BulkCalls(ops: seq<BulkOp>): seq<Call>
    decreases |ops|
  {
    if ops == [] then []
    else BulkCalls(ops[..|ops| - 1]) + [BulkCall(ops[|ops| - 1])]
  }

  /** The types of the bulk operations whose admin call returned true. */
  function ChangedTypes(ops: seq<BulkOp>, outs: seq<BulkOutcome>): set<TypeName>
    requires |ops| == |outs|
    decreases |ops|
  {
    if ops == [] then {}
    else
      var n := |ops| - 1;
      ChangedTypes(ops[..n], outs[..n]) + (if outs[n] == Applied(true) then {ops[n].docType} else {})
  }

  /** The requests of one type with upserts: its surviving upserts, all of
      its pending deletes, then a flush. */
  function TypeGroup(t: TypeName, idx: map<TypeName, map<Key, Doc>>, del: map<TypeName, set<Key>>): seq<Call> {
    [IndexGroup(t, Kept(RowOf(idx, t), del)), DeleteGroup(t, DeletesOf(del, t)), Flush]
  }

  /** The upsert phase over the types in `order`; each type sees the deletes
      that the types before it have not yet consumed. */
  function UpsertPhase(order: seq<TypeName>, idx: map<TypeName, map<Key, Doc>>, del: map<TypeName, set<Key>>): seq<Call>
    decreases |order|
  {
    if order == [] then []
    else
      var n := |order| - 1;
      UpsertPhase(order[..n], idx, del) + TypeGroup(order[n], idx, del - Elems(order[..n]))
  }

  /** The phase for the types that only had deletes. */
  function DeletePhase(order: seq<TypeName>, del: map<TypeName, set<Key>>): seq<Call>
    decreases |order|
  {
    if order == [] then []
    else
      var n := |order| - 1;
      DeletePhase(order[..n], del) + [DeleteGroup(order[n], DeletesOf(del, order[n])), Flush]
  }

  /** Everything a successful commit sends, for the given iteration orders
      of the upsert types and of the delete-only types. */
  function CommitCalls(ops: seq<BulkOp>, outs: seq<BulkOutcome>,
                       idx: map<TypeName, map<Key, Doc>>, del: map<TypeName, set<Key>>,
                       upsertOrder: seq<TypeName>, deleteOrder: seq<TypeName>): seq<Call>
    requires |ops| == |outs|
  {
    BulkCalls(ops) + UpsertPhase(upsertOrder, idx, del) + DeletePhase(deleteOrder, del)
      + [Refresh(ChangedTypes(ops, outs) + idx.Keys + del.Keys)]
  }

  /** Collects the upserts of one row that are not pending deletion, one
      entry at a time, as the consuming iteration over the row does. */
  method KeptDocs(row: map<Key, Doc>, del: map<TypeName, set<Key>>) returns (docs: map<Key, Doc>)
    ensures docs == Kept(row, del)
  {
    docs := map[];
    var entries := row.Keys;
    while entries != {}
      invariant entries <= row.Keys
      invariant docs == map k | k in row && k !in entries && !PendingDelete(k, del) :: row[k]
      decreases entries
    {
      var k :| k in entries;
      if !PendingDelete(k, del) {
        docs := docs[k := row[k]];
      }
      entries := entries - {k};
    }
  }

  /** Runs the filtered bulk operations one after the other and collects
      the types whose operation changed documents. */
  method RunBulk(ops: seq<BulkOp>, outs: seq<BulkOutcome>) returns (calls: seq<Call>, changed: set<TypeName>)
    requires |ops| == |outs|
    ensures calls == BulkCalls(ops)
    ensures changed == ChangedTypes(ops, outs)
  {
    calls, changed := [], {};
    var i := 0;
    while i < |ops|
      invariant 0 <= i <= |ops|
      invariant calls == BulkCalls(ops[..i])
      invariant changed == ChangedTypes(ops[..i], outs[..i])
    {
      calls := calls + [BulkCall(ops[i])];
      if outs[i] == Applied(true) {
        changed := changed + {ops[i].docType};
      }
      assert ops[..i + 1][..i] == ops[..i] && outs[..i + 1][..i] == outs[..i];
      i := i + 1;
    }
    assert ops[..i] == ops && outs[..i] == outs;
  }

  // ---------------------------------------------------------------------
  // The writer

  class EsDocumentWriter {
    /** The upsert table: type, then key, then the last staged document. */
    var indexOps: map<TypeName, map<Key, Doc>>
    /** The delete multimap: type to the keys staged for deletion. */
    var deleteOps: map<TypeName, set<Key>>
    var bulkUpdates: seq<BulkOp>
    var bulkDeletes: seq<BulkOp>

    /** A table row or multimap key exists only while it holds something. */
    ghost predicate Valid()
      reads this
    {
      (forall t :: t in indexOps ==> indexOps[t] != map[]) &&
      (forall t :: t in deleteOps ==> deleteOps[t] != {})
    }

    function IsEmpty(): bool
      reads this
    {
      indexOps == map[] && deleteOps == map[] && bulkUpdates == [] && bulkDeletes == []
    }

    constructor ()
      ensures Valid() && IsEmpty()
    {
      indexOps := map[];
      deleteOps := map[];
      bulkUpdates := [];
      bulkDeletes := [];
    }

    /** Stages `doc` under its own class and `key`, replacing any document
        staged in that cell before. */
    method Put(key: Key, doc: Doc)
      requires Valid()
      modifies this
      ensures Valid() && !IsEmpty()
      ensures forall t, k :: (Cell(indexOps, t, k) ==
        if t == doc.docType && k == key then Some(doc) else Cell(old(indexOps), t, k))
      ensures deleteOps == old(deleteOps)
      ensures bulkUpdates == old(bulkUpdates) && bulkDeletes == old(bulkDeletes)
    {
      var row := RowOf(indexOps, doc.docType)[key := doc];
      assert key in row;
      indexOps := indexOps[doc.docType := row];
      forall t, k ensures Cell(indexOps, t, k) ==
        if t == doc.docType && k == key then Some(doc) else Cell(old(indexOps), t, k)
      {
        if t == doc.docType {
          assert indexOps[t] == row;
        }
      }
    }

    /** Stages every document of `docs` under its key. */
    method PutAll(docs: map<Key, Doc>)
      requires Valid()
      modifies this
      ensures Valid()
      ensures forall t, k :: (Cell(indexOps, t, k) ==
        if k in docs && docs[k].docType == t then Some(docs[k]) else Cell(old(indexOps), t, k))
      ensures deleteOps == old(deleteOps)
      ensures bulkUpdates == old(bulkUpdates) && bulkDeletes == old(bulkDeletes)
    {
      var todo := docs.Keys;
      while todo != {}
        invariant todo <= docs.Keys
        invariant Valid()
        invariant forall t, k :: (Cell(indexOps, t, k) ==
          if k in docs && k !in todo && docs[k].docType == t then Some(docs[k]) else Cell(old(indexOps), t, k))
        invariant deleteOps == old(deleteOps)
        invariant bulkUpdates == old(bulkUpdates) && bulkDeletes == old(bulkDeletes)
        decreases todo
      {
        var key :| key in todo;
        Put(key, docs[key]);
        todo := todo - {key};
      }
    }

    /** Stages a filtered update of every document of `docType` that
        matches `filter`. */
    method BulkUpdate(docType: TypeName, filter: string, script: string)
      requires Valid()
      modifies this
      ensures Valid() && !IsEmpty()
      ensures bulkUpdates == old(bulkUpdates) + [UpdateByQuery(docType, filter, script)]
      ensures indexOps == old(indexOps) && deleteOps == old(deleteOps) && bulkDeletes == old(bulkDeletes)
    {
      bulkUpdates := bulkUpdates + [UpdateByQuery(docType, filter, script)];
    }

    /** Stages a filtered delete of every document of `docType` that
        matches `filter`. */
    method BulkDelete(docType: TypeName, filter: string)
      requires Valid()
      modifies this
      ensures Valid() && !IsEmpty()
      ensures bulkDeletes == old(bulkDeletes) + [DeleteByQuery(docType, filter)]
      ensures indexOps == old(indexOps) && deleteOps == old(deleteOps) && bulkUpdates == old(bulkUpdates)
    {
      bulkDeletes := bulkDeletes + [DeleteByQuery(docType, filter)];
    }

    /** Adds the keys of each type to that type's pending deletes. */
    method RemoveAll(keysByType: map<TypeName, set<Key>>)
      requires Valid()
      modifies this
      ensures Valid()
      ensures forall t :: (DeletesOf(deleteOps, t) == DeletesOf(old(deleteOps), t) + DeletesOf(keysByType, t))
      ensures indexOps == old(indexOps)
      ensures bulkUpdates == old(bulkUpdates) && bulkDeletes == old(bulkDeletes)
    {
      var todo := keysByType.Keys;
      while todo != {}
        invariant todo <= keysByType.Keys
        invariant Valid()
        invariant forall t :: (DeletesOf(deleteOps, t) ==
          DeletesOf(old(deleteOps), t) + if t in todo then {} else DeletesOf(keysByType, t))
        invariant indexOps == old(indexOps)
        invariant bulkUpdates == old(bulkUpdates) && bulkDeletes == old(bulkDeletes)
        decreases todo
      {
        var t :| t in todo;
        ghost var before := deleteOps;
        if keysByType[t] != {} {
          deleteOps := deleteOps[t := DeletesOf(deleteOps, t) + keysByType[t]];
        }
        todo := todo - {t};
        forall u ensures DeletesOf(deleteOps, u) ==
          DeletesOf(old(deleteOps), u) + if u in todo then {} else DeletesOf(keysByType, u)
        {
          if u == t {
            assert DeletesOf(deleteOps, u) == DeletesOf(before, u) + keysByType[t];
          } else {
            assert DeletesOf(deleteOps, u) == DeletesOf(before, u);
          }
        }
      }
    }

    method RemoveKeys(docType: TypeName, keys: set<Key>)
      requires Valid()
      modifies this
      ensures Valid()
      ensures forall t :: (DeletesOf(deleteOps, t) ==
        DeletesOf(old(deleteOps), t) + if t == docType then keys else {})
      ensures indexOps == old(indexOps)
      ensures bulkUpdates == old(bulkUpdates) && bulkDeletes == old(bulkDeletes)
    {
      RemoveAll(map[docType := keys]);
    }

    method Remove(docType: TypeName, key: Key)
      requires Valid()
      modifies this
      ensures Valid() && !IsEmpty()
      ensures forall t :: (DeletesOf(deleteOps, t) ==
        DeletesOf(old(deleteOps), t) + if t == docType then {key} else {})
      ensures indexOps == old(indexOps)
      ensures bulkUpdates == old(bulkUpdates) && bulkDeletes == old(bulkDeletes)
    {
      RemoveKeys(docType, {key});
      assert key in DeletesOf(deleteOps, docType);
    }

    /** The requests for one type with upserts: its upserts whose key is not
        pending deletion anywhere, then all of its deletes, then a flush; the
        type's row and delete keys are consumed. */
    method ConsumeType(t: TypeName) returns (group: seq<Call>)
      requires Valid() && t in indexOps
      modifies this
      ensures Valid()
      ensures group == TypeGroup(t, old(indexOps), old(deleteOps))
      ensures indexOps == old(indexOps) - {t} && deleteOps == old(deleteOps) - {t}
      ensures bulkUpdates == old(bulkUpdates) && bulkDeletes == old(bulkDeletes)
    {
      var docs := KeptDocs(indexOps[t], deleteOps);
      var keys := if t in deleteOps then deleteOps[t] else {};
      group := [IndexGroup(t, docs), DeleteGroup(t, keys), Flush];
      indexOps := indexOps - {t};
      deleteOps := deleteOps - {t};
    }

    /** The upsert phase: for each type with upserts, in hash order, its
        surviving upserts and its deletes, then a flush. The table and the
        consumed delete keys are emptied as the loop goes. */
    method UpsertTypes() returns (calls: seq<Call>, touched: set<TypeName>, ghost order: seq<TypeName>)
      requires Valid()
      modifies this
      ensures Valid()
      ensures Enumerates(order, old(indexOps).Keys) && touched == old(indexOps).Keys
      ensures calls == UpsertPhase(order, old(indexOps), old(deleteOps))
      ensures indexOps == map[] && deleteOps == old(deleteOps) - old(indexOps).Keys
      ensures bulkUpdates == old(bulkUpdates) && bulkDeletes == old(bulkDeletes)
    {
      calls, touched, order := [], {}, [];
      var remaining := indexOps.Keys;
      while remaining != {}
        invariant Valid()
        invariant Distinct(order) && Elems(order) <= old(indexOps).Keys
        invariant remaining == old(indexOps).Keys - Elems(order) && touched == Elems(order)
        invariant indexOps == old(indexOps) - Elems(order)
        invariant deleteOps == old(deleteOps) - Elems(order)
        invariant calls == UpsertPhase(order, old(indexOps), old(deleteOps))
        invariant bulkUpdates == old(bulkUpdates) && bulkDeletes == old(bulkDeletes)
        decreases remaining
      {
        var t :| t in remaining;
        touched := touched + {t};
        UpsertPhaseStep(order, t, old(indexOps), old(deleteOps));
        RemoveOneMore(old(indexOps), Elems(order), t);
        AppendFresh(order, t);
        RemoveOneMore(old(deleteOps), Elems(order), t);
        var group := ConsumeType(t);
        calls := calls + group;
        order := order + [t];
        remaining := remaining - {t};
      }
    }

    /** The delete-only phase: for each type still holding deletes, in hash
        order, its deletes, then a flush. */
    method DeleteOnlyTypes() returns (calls: seq<Call>, touched: set<TypeName>, ghost order: seq<TypeName>)
      requires Valid()
      modifies this
      ensures Valid()
      ensures Enumerates(order, old(deleteOps).Keys) && touched == old(deleteOps).Keys
      ensures calls == DeletePhase(order, old(deleteOps))
      ensures deleteOps == map[]
      ensures indexOps == old(indexOps) && bulkUpdates == old(bulkUpdates) && bulkDeletes == old(bulkDeletes)
    {
      calls, touched, order := [], {}, [];
      var rest := deleteOps.Keys;
      while rest != {}
        invariant Valid()
        invariant Distinct(order) && Elems(order) <= old(deleteOps).Keys
        invariant rest == old(deleteOps).Keys - Elems(order) && touched == Elems(order)
        invariant deleteOps == old(deleteOps) - Elems(order)
        invariant calls == DeletePhase(order, old(deleteOps))
        invariant indexOps == old(indexOps) && bulkUpdates == old(bulkUpdates) && bulkDeletes == old(bulkDeletes)
        decreases rest
      {
        var t :| t in rest;
        touched := touched + {t};
        DeletePhaseStep(order, t, old(deleteOps));
        RemoveOneMore(old(deleteOps), Elems(order), t);
        AppendFresh(order, t);
        assert deleteOps[t] == DeletesOf(old(deleteOps), t);
        calls := calls + [DeleteGroup(t, deleteOps[t]), Flush];
        deleteOps := deleteOps - {t};
        order := order + [t];
        rest := rest - {t};
      }
    }

    /** Applies the pending operations. `updateOutcomes` and
        `deleteOutcomes` are the admin's answers to the staged bulk
        operations, in staging order. The ghost outputs are the hash
        iteration orders the commit happened to use. */
    method Commit(updateOutcomes: seq<BulkOutcome>, deleteOutcomes: seq<BulkOutcome>)
      returns (calls: seq<Call>, failed: bool, ghost upsertOrder: seq<TypeName>, ghost deleteOrder: seq<TypeName>)
      requires Valid()
      requires |updateOutcomes| == |bulkUpdates| && |deleteOutcomes| == |bulkDeletes|
      modifies this
      ensures Valid()
      ensures bulkUpdates == old(bulkUpdates) && bulkDeletes == old(bulkDeletes)
      ensures old(IsEmpty()) ==> calls == [] && !failed && indexOps == old(indexOps) && deleteOps == old(deleteOps)
      ensures !old(IsEmpty()) && (Failed in updateOutcomes || Failed in deleteOutcomes) ==>
        failed && calls == BulkCalls(old(bulkUpdates) + old(bulkDeletes))
        && indexOps == old(indexOps) && deleteOps == old(deleteOps)
      ensures !old(IsEmpty()) && Failed !in updateOutcomes && Failed !in deleteOutcomes ==>
        !failed
        && Enumerates(upsertOrder, old(indexOps).Keys)
        && Enumerates(deleteOrder, old(deleteOps).Keys - old(indexOps).Keys)
        && calls == CommitCalls(old(bulkUpdates) + old(bulkDeletes), updateOutcomes + deleteOutcomes,
                                old(indexOps), old(deleteOps), upsertOrder, deleteOrder)
        && indexOps == map[] && deleteOps == map[]
    {
      calls, failed, upsertOrder, deleteOrder := [], false, [], [];
      if IsEmpty() {
        return;
      }
      // the filtered bulk operations, updates before deletes
      var ops := bulkUpdates + bulkDeletes;
      var outs := updateOutcomes + deleteOutcomes;
      var refresh;
      calls, refresh := RunBulk(ops, outs);
      if Failed in outs {
        failed := true;
        return;
      }
      ghost var idx0, del0 := indexOps, deleteOps;
      var upserts, deletes: seq<Call> := [], [];
      var touched1, touched2: set<TypeName> := {}, {};
      if indexOps != map[] || deleteOps != map[] {
        upserts, touched1, upsertOrder := UpsertTypes();
        deletes, touched2, deleteOrder := DeleteOnlyTypes();
        DeletePhaseIgnoresOtherTypes(deleteOrder, del0, idx0.Keys);
        assert touched2 == del0.Keys - idx0.Keys;
      } else {
        assert upserts == UpsertPhase([], idx0, del0) && deletes == DeletePhase([], del0);
        assert Enumerates([], idx0.Keys) && Enumerates([], del0.Keys - idx0.Keys);
      }
      assert upserts == UpsertPhase(upsertOrder, idx0, del0);
      assert deletes == DeletePhase(deleteOrder, del0);
      assert refresh + touched1 + touched2 == ChangedTypes(ops, outs) + idx0.Keys + del0.Keys;
      calls := calls + upserts + deletes + [Refresh(refresh + touched1 + touched2)];
      assert ops == old(bulkUpdates) + old(bulkDeletes);
    }
  }

  // ---------------------------------------------------------------------
  // Properties of the staging operations and of a commit

  /** The cell view of a table with only non-empty rows determines the
      table, so `Put`'s cell-wise contract fixes the new table. */
  lemma CellsDetermineTable(a: map<TypeName, map<Key, Doc>>, b: map<TypeName, map<Key, Doc>>)
    requires forall t :: t in a ==> a[t] != map[]
    requires forall t :: t in b ==> b[t] != map[]
    requires forall t, k :: Cell(a, t, k) == Cell(b, t, k)
    ensures a == b
  {
    forall t | t in a
      ensures t in b && a[t] == b[t]
    {
      var k :| k in a[t];
      assert Cell(a, t, k).Some?;
      forall k' ensures (k' in a[t]) == (k' in b[t]) && (k' in a[t] ==> a[t][k'] == b[t][k']) {
        assert Cell(a, t, k') == Cell(b, t, k');
      }
    }
    forall t | t in b
      ensures t in a
    {
      var k :| k in b[t];
      assert Cell(b, t, k).Some?;
    }
  }

  lemma {:induction false} BulkCallsShape(ops: seq<BulkOp>)
    ensures |BulkCalls(ops)| == |ops|
    ensures forall j :: 0 <= j < |ops| ==> BulkCalls(ops)[j] == BulkCall(ops[j])
    decreases |ops|
  {
    if ops != [] {
      BulkCallsShape(ops[..|ops| - 1]);
    }
  }

  /** A type joins the refresh set through the bulk phase exactly when one
      of its bulk operations returned true. */
  lemma {:induction false} ChangedTypesMeans(ops: seq<BulkOp>, outs: seq<BulkOutcome>, t: TypeName)
    requires |ops| == |outs|
    ensures t in ChangedTypes(ops, outs) <==>
      exists j :: 0 <= j < |ops| && ops[j].docType == t && outs[j] == Applied(true)
    decreases |ops|
  {
    if ops != [] {
      var n := |ops| - 1;
      ChangedTypesMeans(ops[..n], outs[..n], t);
      if t in ChangedTypes(ops[..n], outs[..n]) {
        var j :| 0 <= j < n && ops[..n][j].docType == t && outs[..n][j] == Applied(true);
        assert ops[j].docType == t && outs[j] == Applied(true);
      }
      if exists j :: 0 <= j < |ops| && ops[j].docType == t && outs[j] == Applied(true) {
        var j :| 0 <= j < |ops| && ops[j].docType == t && outs[j] == Applied(true);
        if j < n {
          assert ops[..n][j].docType == t && outs[..n][j] == Applied(true);
        }
      }
    }
  }

  /** The upsert phase sends, for the i-th type, its surviving upserts, its
      deletes and a flush, seeing the deletes not consumed by earlier types. */
  lemma {:induction false} UpsertPhaseShape(order: seq<TypeName>, idx: map<TypeName, map<Key, Doc>>, del: map<TypeName, set<Key>>)
    ensures |UpsertPhase(order, idx, del)| == 3 * |order|
    ensures forall i :: 0 <= i < |order| ==>
      var g := UpsertPhase(order, idx, del);
      var seen := del - Elems(order[..i]);
      g[3 * i] == IndexGroup(order[i], Kept(RowOf(idx, order[i]), seen))
      && g[3 * i + 1] == DeleteGroup(order[i], DeletesOf(seen, order[i]))
      && g[3 * i + 2] == Flush
    decreases |order|
  {
    if order != [] {
      var n := |order| - 1;
      var prefix := order[..n];
      var g := UpsertPhase(order, idx, del);
      var gp := UpsertPhase(prefix, idx, del);
      var last := TypeGroup(order[n], idx, del - Elems(prefix));
      UpsertPhaseShape(prefix, idx, del);
      assert g == gp + last;
      forall i | 0 <= i < |order|
        ensures var seen := del - Elems(order[..i]);
          g[3 * i] == IndexGroup(order[i], Kept(RowOf(idx, order[i]), seen))
          && g[3 * i + 1] == DeleteGroup(order[i], DeletesOf(seen, order[i]))
          && g[3 * i + 2] == Flush
      {
        if i < n {
          assert prefix[i] == order[i] && prefix[..i] == order[..i];
          assert g[3 * i] == gp[3 * i] && g[3 * i + 1] == gp[3 * i + 1] && g[3 * i + 2] == gp[3 * i + 2];
        } else {
          assert order[..i] == prefix;
          assert g[3 * i] == last[0] && g[3 * i + 1] == last[1] && g[3 * i + 2] == last[2];
        }
      }
    }
  }

  /** Appending an element not yet listed keeps a list free of repeats. */
  lemma AppendFresh(order: seq<TypeName>, t: TypeName)
    requires Distinct(order) && t !in Elems(order)
    ensures Distinct(order + [t]) && Elems(order + [t]) == Elems(order) + {t}
  {
    var o := order + [t];
    forall i, j | 0 <= i < j < |o| ensures o[i] != o[j] {
      if j == |order| {
        assert o[i] == order[i] && order[i] in Elems(order);
      } else {
        assert o[i] == order[i] && o[j] == order[j];
      }
    }
  }

  /** Removing the keys of `s` and then `t` removes the keys of `s + {t}`. */
  lemma RemoveOneMore<V>(m: map<TypeName, V>, s: set<TypeName>, t: TypeName)
    ensures m - s - {t} == m - (s + {t})
  {
    assert (m - s - {t}).Keys == (m - (s + {t})).Keys;
  }

  lemma UpsertPhaseStep(order: seq<TypeName>, t: TypeName, idx: map<TypeName, map<Key, Doc>>, del: map<TypeName, set<Key>>)
    ensures UpsertPhase(order + [t], idx, del) == UpsertPhase(order, idx, del) + TypeGroup(t, idx, del - Elems(order))
    ensures Elems(order + [t]) == Elems(order) + {t}
  {
    assert (order + [t])[..|order|] == order;
  }

  lemma DeletePhaseStep(order: seq<TypeName>, t: TypeName, del: map<TypeName, set<Key>>)
    ensures DeletePhase(order + [t], del) == DeletePhase(order, del) + [DeleteGroup(t, DeletesOf(del, t)), Flush]
    ensures Elems(order + [t]) == Elems(order) + {t}
  {
    assert (order + [t])[..|order|] == order;
  }

  lemma {:induction false} DeletePhaseShape(order: seq<TypeName>, del: map<TypeName, set<Key>>)
    ensures |DeletePhase(order, del)| == 2 * |order|
    ensures forall i :: 0 <= i < |order| ==>
      DeletePhase(order, del)[2 * i] == DeleteGroup(order[i], DeletesOf(del, order[i]))
      && DeletePhase(order, del)[2 * i + 1] == Flush
    decreases |order|
  {
    if order != [] {
      var n := |order| - 1;
      DeletePhaseShape(order[..n], del);
    }
  }

  /** Delete wins: an upsert whose key is pending deletion under its own
      type is not indexed, and the delete of that key is sent in the same
      group. */
  lemma DeleteWinsSameType(order: seq<TypeName>, idx: map<TypeName, map<Key, Doc>>, del: map<TypeName, set<Key>>, i: nat, k: Key)
    requires Distinct(order)
    requires i < |order|
    requires k in DeletesOf(del, order[i])
    ensures |UpsertPhase(order, idx, del)| == 3 * |order|
    ensures var g := UpsertPhase(order, idx, del);
      g[3 * i].IndexGroup? && k !in g[3 * i].docs
      && g[3 * i + 1].DeleteGroup? && k in g[3 * i + 1].keys
  {
    UpsertPhaseShape(order, idx, del);
    var seen := del - Elems(order[..i]);
    assert order[i] !in Elems(order[..i]);
    assert order[i] in seen && k in seen[order[i]];
  }

  /** The delete-wins check spans all types: a key staged for deletion under
      a type without upserts suppresses that key's upsert under every type. */
  lemma DeleteOnlyTypeSuppresses(order: seq<TypeName>, idx: map<TypeName, map<Key, Doc>>, del: map<TypeName, set<Key>>, u: TypeName, k: Key)
    requires Enumerates(order, idx.Keys)
    requires u in del && u !in idx && k in del[u]
    ensures |UpsertPhase(order, idx, del)| == 3 * |order|
    ensures forall i :: 0 <= i < |order| ==>
      UpsertPhase(order, idx, del)[3 * i].IndexGroup? && k !in UpsertPhase(order, idx, del)[3 * i].docs
  {
    UpsertPhaseShape(order, idx, del);
    forall i | 0 <= i < |order|
      ensures UpsertPhase(order, idx, del)[3 * i].IndexGroup? && k !in UpsertPhase(order, idx, del)[3 * i].docs
    {
      var seen := del - Elems(order[..i]);
      assert u !in Elems(order[..i]);
      assert u in seen && k in seen[u];
    }
  }

  /** An upsert whose key is not pending deletion anywhere is indexed, with
      the last document staged for it. */
  lemma UpsertWithoutDeleteIsIndexed(order: seq<TypeName>, idx: map<TypeName, map<Key, Doc>>, del: map<TypeName, set<Key>>, i: nat, k: Key)
    requires i < |order|
    requires k in RowOf(idx, order[i]) && !PendingDelete(k, del)
    ensures |UpsertPhase(order, idx, del)| == 3 * |order|
    ensures var g := UpsertPhase(order, idx, del);
      g[3 * i].IndexGroup? && k in g[3 * i].docs && g[3 * i].docs[k] == idx[order[i]][k]
  {
    UpsertPhaseShape(order, idx, del);
    var seen := del - Elems(order[..i]);
    assert !PendingDelete(k, seen);
  }

  /** Whether a key deleted under one type suppresses the same key's upsert
      under another type depends on the hash order of the types: a type
      processed earlier consumes its deletes before the later one looks. */
  lemma SuppressionDependsOnOrder()
    ensures var d1 := Doc("A", false, [1]);
      var d2 := Doc("B", false, [2]);
      var idx := map["A" := map["k" := d1], "B" := map["k" := d2]];
      var del := map["A" := {"k"}];
      UpsertPhase(["A", "B"], idx, del)[3] == IndexGroup("B", map["k" := d2])
      && UpsertPhase(["B", "A"], idx, del)[0] == IndexGroup("B", map[])
  {
    var d1 := Doc("A", false, [1]);
    var d2 := Doc("B", false, [2]);
    var idx := map["A" := map["k" := d1], "B" := map["k" := d2]];
    var del := map["A" := {"k"}];
    UpsertPhaseShape(["A", "B"], idx, del);
    UpsertPhaseShape(["B", "A"], idx, del);
    assert ["A", "B"][..1] == ["A"];
    assert Elems(["A"]) == {"A"};
    assert del - {"A"} == map[];
    assert Kept(map["k" := d2], map[]) == map["k" := d2];
    assert ["B", "A"][..0] == [];
    assert Elems([]) == {};
    assert PendingDelete("k", del);
    assert Kept(map["k" := d2], del) == map[];
  }

  predicate NoRefresh(cs: seq<Call>) {
    forall j :: 0 <= j < |cs| ==> !cs[j].Refresh?
  }

  predicate NoBulk(cs: seq<Call>) {
    forall j :: 0 <= j < |cs| ==> !cs[j].BulkCall?
  }

  /** The per-document phases send only index groups, delete groups and
      flushes. */
  predicate DocumentCalls(cs: seq<Call>) {
    forall j :: 0 <= j < |cs| ==> cs[j].IndexGroup? || cs[j].DeleteGroup? || cs[j].Flush?
  }

  lemma {:induction false} UpsertPhaseIsDocumentCalls(order: seq<TypeName>, idx: map<TypeName, map<Key, Doc>>, del: map<TypeName, set<Key>>)
    ensures DocumentCalls(UpsertPhase(order, idx, del))
    decreases |order|
  {
    if order != [] {
      var n := |order| - 1;
      UpsertPhaseIsDocumentCalls(order[..n], idx, del);
    }
  }

  lemma {:induction false} DeletePhaseIsDocumentCalls(order: seq<TypeName>, del: map<TypeName, set<Key>>)
    ensures DocumentCalls(DeletePhase(order, del))
    decreases |order|
  {
    if order != [] {
      DeletePhaseIsDocumentCalls(order[..|order| - 1], del);
    }
  }

  /** The delete-only phase reads only the deletes of the types it lists. */
  lemma {:induction false} DeletePhaseIgnoresOtherTypes(order: seq<TypeName>, del: map<TypeName, set<Key>>, others: set<TypeName>)
    requires Elems(order) !! others
    ensures DeletePhase(order, del - others) == DeletePhase(order, del)
    decreases |order|
  {
    if order != [] {
      var n := |order| - 1;
      assert Elems(order[..n]) <= Elems(order);
      DeletePhaseIgnoresOtherTypes(order[..n], del, others);
      assert order[n] in Elems(order);
    }
  }

  /** A successful commit runs every bulk operation, in staging order,
      before any per-document request, and calls refresh exactly once, last,
      with the types whose bulk operation changed documents together with
      every type that had upserts or deletes. */
  lemma CommitCallOrder(ops: seq<BulkOp>, outs: seq<BulkOutcome>,
                        idx: map<TypeName, map<Key, Doc>>, del: map<TypeName, set<Key>>,
                        upsertOrder: seq<TypeName>, deleteOrder: seq<TypeName>)
    requires |ops| == |outs|
    ensures var c := CommitCalls(ops, outs, idx, del, upsertOrder, deleteOrder);
      |ops| < |c|
      && (forall j :: 0 <= j < |ops| ==> c[j] == BulkCall(ops[j]))
      && (forall j :: |ops| <= j < |c| ==> !c[j].BulkCall?)
      && c[|c| - 1] == Refresh(ChangedTypes(ops, outs) + idx.Keys + del.Keys)
      && (forall j :: 0 <= j < |c| - 1 ==> !c[j].Refresh?)
  {
    BulkCallsShape(ops);
    UpsertPhaseIsDocumentCalls(upsertOrder, idx, del);
    DeletePhaseIsDocumentCalls(deleteOrder, del);
    var b := BulkCalls(ops);
    var u := UpsertPhase(upsertOrder, idx, del);
    var d := DeletePhase(deleteOrder, del);
    var c := CommitCalls(ops, outs, idx, del, upsertOrder, deleteOrder);
    assert c == b + u + d + [Refresh(ChangedTypes(ops, outs) + idx.Keys + del.Keys)];
    forall j | |ops| <= j < |c| - 1
      ensures !c[j].BulkCall? && !c[j].Refresh?
    {
      if j < |b| + |u| {
        assert c[j] == u[j - |b|];
      } else {
        assert c[j] == d[j - |b| - |u|];
      }
    }
  }

  /** Every staged delete is sent exactly once: the deletes of a type with
      upserts in that type's group, the others in the delete-only phase. */
  lemma DeleteOnlyTypesSent(deleteOrder: seq<TypeName>, idx: map<TypeName, map<Key, Doc>>, del: map<TypeName, set<Key>>, t: TypeName)
    requires Enumerates(deleteOrder, del.Keys - idx.Keys)
    requires t in del && t !in idx
    ensures |DeletePhase(deleteOrder, del)| == 2 * |deleteOrder|
    ensures exists i :: (0 <= i < |deleteOrder| && deleteOrder[i] == t
      && DeletePhase(deleteOrder, del)[2 * i] == DeleteGroup(t, del[t]))
  {
    DeletePhaseShape(deleteOrder, del);
    assert t in Elems(deleteOrder);
    var i :| 0 <= i < |deleteOrder| && deleteOrder[i] == t;
  }
}
