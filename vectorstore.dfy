/**
 * `src/vectorstore.py`: `create_vector_store` truncates the persistent Chroma collection and
 * refills it with the given chunks.
 *
 * The collection is modelled by what it stores: a map from entry id to chunk. Chroma's ids
 * are fresh strings (UUIDs); here they are drawn from a counter that is larger than every id
 * in use. Embedding vectors are left out. Each call into the collection is recorded, so that
 * which calls `create_vector_store` makes can be stated. Whether `get`, `delete` or
 * `add_documents` raises is an input.
 */
module VectorStore {
  import opened Wrappers
  import opened Enumerations
  import Utils

  const ChromaDbPath: string := "./chroma_db"
  const CollectionName: string := "rag_capstone_collection_v1"

  /** A call made on the collection. */
  datatype Call = GetCall | DeleteCall(ids: seq<nat>) | AddCall(count: nat)

  /** Which call, if any, raises inside the `try` of `create_vector_store`. */
  datatype Fault = NoFault | GetFails | DeleteFails

  /** The ids `start`, ..., `start + n - 1`. */
  function IdRange(start: nat, n: nat): (r: set<nat>)
    ensures forall i :: i in r <==> start <= i < start + n
    ensures |r| == n
  {
    if n == 0 then {} else IdRange(start, n - 1) + {start + n - 1}
  }

  /** `add_documents(chunks)`: chunk `i` under the fresh id `start + i`. */
  function FreshEntries(start: nat, chunks: seq<Utils.Chunk>): (m: map<nat, Utils.Chunk>)
    ensures m.Keys == IdRange(start, |chunks|)
    ensures forall i :: 0 <= i < |chunks| ==> m[start + i] == chunks[i]
  {
    map i | i in IdRange(start, |chunks|) :: chunks[i - start]
  }

  /** Every id in use is below the next fresh id. */
  predicate IdsBelow(entries: map<nat, Utils.Chunk>, nextId: nat) {
    forall id :: id in entries ==> id < nextId
  }

  /** The entries the `try` block leaves: none when it completes, all of them when it raised. */
  function Cleared(entries: map<nat, Utils.Chunk>, fault: Fault): map<nat, Utils.Chunk> {
    if fault == NoFault then map[] else entries
  }

  /** The collection's entries after a `create_vector_store(chunks)` that returns. */
  function Rebuilt(entries: map<nat, Utils.Chunk>, nextId: nat, chunks: seq<Utils.Chunk>, fault: Fault): map<nat, Utils.Chunk> {
    Cleared(entries, fault) + FreshEntries(nextId, chunks)
  }

  /** A persistent Chroma collection. */
  class Collection {
    var entries: map<nat, Utils.Chunk>
    var nextId: nat
    var calls: seq<Call>

    ghost predicate Valid()
      reads this
    {
      IdsBelow(entries, nextId)
    }

    /** An empty collection, as a first `Chroma(...)` on a fresh directory gives. */
    constructor ()
      ensures Valid() && entries == map[] && calls == []
    {
      entries := map[];
      nextId := 0;
      calls := [];
    }

    /** `get()["ids"]`, or None when the call raises. */
    method Get(fails: bool) returns (ids: Option<seq<nat>>)
      modifies this
      ensures entries == old(entries) && nextId == old(nextId)
      ensures calls == old(calls) + [GetCall]
      ensures fails <==> ids.None?
      ensures ids.Some? ==> IsEnumeration(ids.value, entries.Keys)
    {
      calls := calls + [GetCall];
      if fails {
        return None;
      }
      var listed := Enumerate(entries.Keys);
      ids := Some(listed);
    }

    /** `delete(ids=ids)`: the entries under `ids` are removed, unless the call raises. */
    method Delete(ids: seq<nat>, fails: bool)
      modifies this
      ensures nextId == old(nextId)
      ensures calls == old(calls) + [DeleteCall(ids)]
      ensures fails ==> entries == old(entries)
      ensures !fails ==> entries == map id | id in old(entries) && id !in ids :: old(entries)[id]
    {
      calls := calls + [DeleteCall(ids)];
      if !fails {
        entries := map id | id in entries && id !in ids :: entries[id];
      }
    }

    /**
     * `add_documents(chunks)`: each chunk under a fresh id, unless the call raises (an embedding
     * or upsert error, or a Chroma release that refuses an empty batch), which adds nothing.
     */
    method AddDocuments(chunks: seq<Utils.Chunk>, fails: bool)
      requires Valid()
      modifies this
      ensures Valid()
      ensures fails ==> entries == old(entries) && nextId == old(nextId)
      ensures !fails ==> entries == old(entries) + FreshEntries(old(nextId), chunks)
      ensures !fails ==> nextId == old(nextId) + |chunks|
      ensures calls == old(calls) + [AddCall(|chunks|)]
    {
      calls := calls + [AddCall(|chunks|)];
      if !fails {
        entries := entries + FreshEntries(nextId, chunks);
        nextId := nextId + |chunks|;
      }
    }
  }

  /** The calls the `try` block makes, given the ids `get` returned. */
  function ClearCalls(ids: seq<nat>, fault: Fault): seq<Call> {
    if fault == GetFails || ids == [] then [GetCall] else [GetCall, DeleteCall(ids)]
  }

  /** The calls `create_vector_store` makes: those of the `try` block, then one `add_documents`. */
  function RebuildCalls(ids: seq<nat>, chunks: seq<Utils.Chunk>, fault: Fault): seq<Call> {
    ClearCalls(ids, fault) + [AddCall(|chunks|)]
  }

  /**
   * The `try` block of `create_vector_store`: list every id and delete them all when there are
   * any; an exception leaves the entries as they were.
   */
  method ClearCollection(db: Collection, fault: Fault) returns (ghost listed: seq<nat>)
    requires db.Valid()
    modifies db
    ensures db.Valid() && db.nextId == old(db.nextId)
    ensures db.entries == if fault == NoFault then map[] else old(db.entries)
    ensures IsEnumeration(listed, old(db.entries).Keys)
    ensures db.calls == old(db.calls) + ClearCalls(listed, fault)
  {
    listed := Enumerate(db.entries.Keys);
    var existing := db.Get(fault == GetFails);
    match existing {
      case None =>
      case Some(ids) =>
        listed := ids;
        if ids != [] {
          db.Delete(ids, fault == DeleteFails);
          if fault == NoFault {
            assert db.entries == map[] by {
              forall id | id in old(db.entries) ensures id in ids { }
            }
          }
        } else {
          assert old(db.entries).Keys == {};
        }
    }
  }

  /**
   * `create_vector_store(chunks, ...)` on the collection `db`. `addFails` says whether
   * `add_documents`, which runs outside the `try`, raises; then `raised` is true, the exception
   * leaves the function and the collection keeps only what the `try` block left.
   */
  method CreateVectorStore(db: Collection, chunks: seq<Utils.Chunk>, fault: Fault, addFails: bool)
    returns (raised: bool, ghost listed: seq<nat>)
    requires db.Valid()
    modifies db
    ensures db.Valid()
    ensures raised == addFails
    ensures !raised ==> db.entries == Rebuilt(old(db.entries), old(db.nextId), chunks, fault)
    ensures !raised ==> db.nextId == old(db.nextId) + |chunks|
    ensures raised ==> db.entries == Cleared(old(db.entries), fault) && db.nextId == old(db.nextId)
    ensures IsEnumeration(listed, old(db.entries).Keys)
    ensures db.calls == old(db.calls) + RebuildCalls(listed, chunks, fault)
  {
    listed := ClearCollection(db, fault);
    db.AddDocuments(chunks, addFails);
    raised := addFails;
    assert db.calls == old(db.calls) + (ClearCalls(listed, fault) + [AddCall(|chunks|)]);
  }

  /* ---------------- properties ---------------- */

  /** Every id handed out stays below the new counter. */
  lemma RebuiltIdsBelow(entries: map<nat, Utils.Chunk>, nextId: nat, chunks: seq<Utils.Chunk>, fault: Fault)
    requires IdsBelow(entries, nextId)
    ensures IdsBelow(Rebuilt(entries, nextId, chunks, fault), nextId + |chunks|)
  {
  }

  /**
   * When listing and deleting succeed the collection holds exactly the supplied chunks: one
   * entry per chunk, under ids that none of the earlier entries had.
   */
  lemma RebuildHoldsExactlyChunks(entries: map<nat, Utils.Chunk>, nextId: nat, chunks: seq<Utils.Chunk>)
    requires IdsBelow(entries, nextId)
    ensures var r := Rebuilt(entries, nextId, chunks, NoFault);
      && r.Keys == IdRange(nextId, |chunks|)
      && |r| == |chunks|
      && (forall i :: 0 <= i < |chunks| ==> r[nextId + i] == chunks[i])
      && (forall id :: id in entries ==> id !in r)
  {
    var r := Rebuilt(entries, nextId, chunks, NoFault);
    assert r == FreshEntries(nextId, chunks);
    assert |r| == |r.Keys|;
  }

  /** Without a fault the rebuilt collection has one entry per chunk, whatever it held before. */
  lemma RebuiltCount(entries: map<nat, Utils.Chunk>, nextId: nat, chunks: seq<Utils.Chunk>)
    ensures |Rebuilt(entries, nextId, chunks, NoFault)| == |chunks|
  {
    var r := Rebuilt(entries, nextId, chunks, NoFault);
    assert r == FreshEntries(nextId, chunks);
    assert |r| == |r.Keys|;
  }

  /** Without a fault nothing old survives: the collection is the fresh entries alone. */
  lemma RebuiltClean(entries: map<nat, Utils.Chunk>, nextId: nat, chunks: seq<Utils.Chunk>)
    ensures Rebuilt(entries, nextId, chunks, NoFault) == FreshEntries(nextId, chunks)
  {
    assert map[] + FreshEntries(nextId, chunks) == FreshEntries(nextId, chunks);
  }

  /**
   * When `add_documents` raises, none of the chunks is stored: after a completed wipe the
   * collection is empty, after a swallowed error it holds exactly the old entries, and no
   * entry sits under an id the add would have given. For non-empty chunks this differs from
   * every rebuild that returns.
   */
  lemma AddRaisedStoresNoChunk(entries: map<nat, Utils.Chunk>, nextId: nat, chunks: seq<Utils.Chunk>, fault: Fault)
    requires IdsBelow(entries, nextId)
    ensures var c := Cleared(entries, fault);
      && (fault == NoFault ==> c == map[])
      && (fault != NoFault ==> c == entries)
      && c.Keys !! IdRange(nextId, |chunks|)
      && (chunks != [] ==> c != Rebuilt(entries, nextId, chunks, fault))
  {
    var c := Cleared(entries, fault);
    if chunks != [] {
      assert nextId in Rebuilt(entries, nextId, chunks, fault);
      assert nextId !in c;
    }
  }

  /**
   * When `get` or `delete` raises, the error is swallowed and the chunks are added anyway: the
   * old entries remain and the count is the old count plus the number of chunks.
   */
  lemma RebuildAfterFaultKeepsOld(entries: map<nat, Utils.Chunk>, nextId: nat, chunks: seq<Utils.Chunk>, fault: Fault)
    requires IdsBelow(entries, nextId) && fault != NoFault
    ensures var r := Rebuilt(entries, nextId, chunks, fault);
      && (forall id :: id in entries ==> id in r && r[id] == entries[id])
      && (forall i :: 0 <= i < |chunks| ==> r[nextId + i] == chunks[i])
      && |r| == |entries| + |chunks|
  {
    var added := FreshEntries(nextId, chunks);
    var r := Rebuilt(entries, nextId, chunks, fault);
    assert r == entries + added;
    assert entries.Keys * added.Keys == {};
    assert r.Keys == entries.Keys + added.Keys;
    assert |r| == |r.Keys|;
  }

  /** `delete` is called, with the listed ids, exactly when `get` succeeded and listed some. */
  lemma DeleteOnlyWhenNonEmpty(ids: seq<nat>, existing: set<nat>, chunks: seq<Utils.Chunk>, fault: Fault)
    requires IsEnumeration(ids, existing)
    ensures DeleteCall(ids) in RebuildCalls(ids, chunks, fault) <==> existing != {} && fault != GetFails
    ensures forall k :: 0 <= k < |RebuildCalls(ids, chunks, fault)| && RebuildCalls(ids, chunks, fault)[k].DeleteCall?
              ==> RebuildCalls(ids, chunks, fault)[k] == DeleteCall(ids)
  {
    var calls := RebuildCalls(ids, chunks, fault);
    assert ids != [] ==> ids[0] in existing;
    if existing != {} {
      var x :| x in existing;
      assert x in ids;
      if fault != GetFails {
        assert calls[1] == DeleteCall(ids);
      }
    }
  }
}
