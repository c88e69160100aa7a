/** The chunk store with its two indexes (app/rag/index.py). */
module RagIndex {
  import opened Wrappers
  import opened Corpus
  import Bm25
  import Vectors

  type Id = string

  datatype AddError = CountMismatch | BadVector(e: Vectors.Error)

  // ---- What the three stores hold ----

  /** The chunk store, the vector entries, and the vector index's own copies of its chunks. */
  datatype Stores = Stores(chunks: map<Id, Chunk>, entries: seq<Vectors.Entry>, copies: map<Id, Chunk>)

  ghost function Drop(s: Stores, ids: set<Id>): Stores {
    Stores(s.chunks - ids, Vectors.WithoutSet(s.entries, ids), s.copies - ids)
  }

  /** Storing a chunk, with its row if it has one. */
  ghost function Put(s: Stores, c: Chunk, row: Option<Vectors.Vector>): Stores {
    var chunks := s.chunks[c.chunkId := c];
    if row.None? then s.(chunks := chunks)
    else Stores(chunks, Vectors.Without(s.entries, c.chunkId) + [Vectors.Entry(c.chunkId, row.value)],
      s.copies[c.chunkId := c])
  }

  ghost function PutAll(s: Stores, cs: seq<Chunk>, rows: Option<seq<Vectors.Vector>>): Stores
    requires rows.Some? ==> |rows.value| == |cs|
  {
    if cs == [] then s
    else
      var n := |cs| - 1;
      Put(PutAll(s, cs[..n], if rows.None? then None else Some(rows.value[..n])),
          cs[n], if rows.None? then None else Some(rows.value[n]))
  }

  ghost function IdsOf(cs: seq<Chunk>): set<Id> {
    if cs == [] then {} else IdsOf(cs[..|cs| - 1]) + {cs[|cs| - 1].chunkId}
  }

  ghost function OfDocument(chunks: map<Id, Chunk>, documentId: string): set<Id> {
    set id | id in chunks && chunks[id].documentId == documentId
  }

  lemma DropNone(s: Stores)
    ensures Drop(s, {}) == s
  {
    Vectors.WithoutOthers(s.entries, {});
  }

  lemma DropBoth(s: Stores, a: set<Id>, b: set<Id>)
    ensures Drop(Drop(s, a), b) == Drop(s, a + b)
  {
    Vectors.WithoutBoth(s.entries, a, b);
  }

  /** Dropping a chunk's id undoes having stored it. */
  lemma DropAfterPut(s: Stores, c: Chunk, row: Option<Vectors.Vector>, ids: set<Id>)
    requires c.chunkId in ids
    ensures Drop(Put(s, c, row), ids) == Drop(s, ids)
  {
    if row.Some? {
      Vectors.WithoutAppended(Vectors.Without(s.entries, c.chunkId), Vectors.Entry(c.chunkId, row.value), ids);
      Vectors.WithoutIsSet(s.entries, c.chunkId);
      Vectors.WithoutBoth(s.entries, {c.chunkId}, ids);
      assert {c.chunkId} + ids == ids;
    }
  }

  lemma {:induction false} DropAfterPutAll(s: Stores, cs: seq<Chunk>, rows: Option<seq<Vectors.Vector>>, ids: set<Id>)
    requires rows.Some? ==> |rows.value| == |cs|
    requires IdsOf(cs) <= ids
    ensures Drop(PutAll(s, cs, rows), ids) == Drop(s, ids)
  {
    hide Drop, Put;
    if cs != [] {
      var n := |cs| - 1;
      var before := if rows.None? then None else Some(rows.value[..n]);
      DropAfterPutAll(s, cs[..n], before, ids);
      DropAfterPut(PutAll(s, cs[..n], before), cs[n], if rows.None? then None else Some(rows.value[n]), ids);
    }
  }

  lemma {:induction false} IdsOfAll(cs: seq<Chunk>, id: Id)
    ensures id in IdsOf(cs) <==> exists i :: 0 <= i < |cs| && cs[i].chunkId == id
  {
    if cs != [] {
      var n := |cs| - 1;
      IdsOfAll(cs[..n], id);
      if i :| 0 <= i < n && cs[..n][i].chunkId == id { assert cs[i].chunkId == id; }
    }
  }

  lemma {:induction false} IdsOfPrefix(cs: seq<Chunk>, k: nat)
    requires k <= |cs|
    ensures IdsOf(cs[..k]) <= IdsOf(cs)
  {
    if k < |cs| {
      var n := |cs| - 1;
      IdsOfPrefix(cs[..n], k);
      assert cs[..n][..k] == cs[..k];
    } else {
      assert cs[..k] == cs;
    }
  }

  /** Where none of the ids was in use, dropping them changes nothing; otherwise it does. */
  lemma DropFresh(s: Stores, ids: set<Id>)
    requires forall i :: 0 <= i < |s.entries| ==> s.entries[i].id in s.chunks
    requires s.copies.Keys <= s.chunks.Keys
    ensures Drop(s, ids) == s <==> ids !! s.chunks.Keys
  {
    if ids !! s.chunks.Keys {
      Vectors.WithoutOthers(s.entries, ids);
      assert s.chunks - ids == s.chunks && s.copies - ids == s.copies;
    } else {
      var id :| id in ids && id in s.chunks;
      assert id !in Drop(s, ids).chunks;
    }
  }

  // ---- The index ----

  /** The lexical index stores exactly the chunks. */
  ghost predicate SameChunks(chunks: map<Id, Chunk>, docs: Bm25.Docs) {
    docs.Keys == chunks.Keys && forall id :: id in chunks ==> docs[id].chunk == chunks[id] && chunks[id].chunkId == id
  }

  /** The vector index holds the same copies of its chunks as the store. */
  ghost predicate Agree(s: Stores) {
    forall id :: id in s.copies ==> id in s.chunks && s.copies[id] == s.chunks[id]
  }

  lemma AgreeAfterDrop(s: Stores, ids: set<Id>)
    requires Agree(s)
    ensures Agree(Drop(s, ids))
  {}

  /** The chunk that stays when chunks are stored in order: the last under the id. */
  ghost function LastOf(cs: seq<Chunk>, id: Id): Chunk
    requires id in IdsOf(cs)
  {
    var n := |cs| - 1;
    if cs[n].chunkId == id then cs[n] else LastOf(cs[..n], id)
  }

  /** Storing chunks without vectors replaces what the chunk store has under their ids and leaves the copies. */
  lemma {:induction false} PutWithoutVectors(s: Stores, cs: seq<Chunk>)
    ensures PutAll(s, cs, None).copies == s.copies
    ensures PutAll(s, cs, None).chunks.Keys == s.chunks.Keys + IdsOf(cs)
    ensures forall id :: id in PutAll(s, cs, None).chunks ==>
      PutAll(s, cs, None).chunks[id] == if id in IdsOf(cs) then LastOf(cs, id) else s.chunks[id]
  {
    if cs != [] { PutWithoutVectors(s, cs[..|cs| - 1]); }
  }

  lemma {:induction false} AgreeAfterVectors(s: Stores, cs: seq<Chunk>, rows: seq<Vectors.Vector>)
    requires Agree(s) && |rows| == |cs|
    ensures Agree(PutAll(s, cs, Some(rows)))
  {
    if cs != [] { AgreeAfterVectors(s, cs[..|cs| - 1], rows[..|cs| - 1]); }
  }

  /**
   Chunks that come with vectors keep the copies equal. Chunks that come without do so exactly when each one under
   an id that the vector index holds is, the last time it occurs, the copy held there.
   */
  lemma AgreeAfterPutAll(s: Stores, cs: seq<Chunk>, rows: Option<seq<Vectors.Vector>>)
    requires rows.Some? ==> |rows.value| == |cs|
    requires Agree(s)
    ensures rows.Some? ==> Agree(PutAll(s, cs, rows))
    ensures rows.None? ==> PutAll(s, cs, rows).copies == s.copies
    ensures rows.None? ==>
      (Agree(PutAll(s, cs, rows)) <==> forall id :: id in s.copies && id in IdsOf(cs) ==>
        LastOf(cs, id) == s.copies[id])
  {
    hide PutAll;
    if rows.Some? {
      AgreeAfterVectors(s, cs, rows.value);
    } else {
      PutWithoutVectors(s, cs);
      var after := PutAll(s, cs, None);
      if Agree(after) {
        forall id | id in s.copies && id in IdsOf(cs) ensures LastOf(cs, id) == s.copies[id] {
          assert id in after.copies;
        }
      }
    }
  }

  /** A stored chunk added again under its id, changed and without a vector, leaves the old copy where it was. */
  lemma ChangedWithoutVector(s: Stores, first: Chunk, row: Vectors.Vector, changed: Chunk)
    requires Agree(s) && changed.chunkId == first.chunkId && changed != first
    ensures var held := PutAll(s, [first], Some([row])); Agree(held) && !Agree(PutAll(held, [changed], None))
  {
    AgreeAfterPutAll(s, [first], Some([row]));
    var held := PutAll(s, [first], Some([row]));
    assert held == Put(PutAll(s, [], Some([])), first, Some(row));
    AgreeAfterPutAll(held, [changed], None);
    assert changed.chunkId in IdsOf([changed]) && LastOf([changed], changed.chunkId) == changed;
  }

  lemma SameChunksPut(chunks: map<Id, Chunk>, docs: Bm25.Docs, c: Chunk, doc: Bm25.Doc)
    requires SameChunks(chunks, docs) && doc.chunk == c
    ensures SameChunks(chunks[c.chunkId := c], docs[c.chunkId := doc])
  {}

  class RagIndex {
    var chunks: map<Id, Chunk>
    const bm25: Bm25.BM25Index
    const vectors: Vectors.InMemoryVectorIndex?

    ghost function Repr(): set<object> {
      {this, bm25} + if vectors == null then {} else {vectors}
    }

    ghost predicate Valid()
      reads Repr()
    {
      && bm25.Valid() && (vectors != null ==> vectors.Valid())
      && SameChunks(chunks, bm25.docs)
      && (vectors != null ==> vectors.chunks.Keys <= chunks.Keys)
    }

    ghost function Held(): Stores
      requires Valid()
      reads Repr()
    {
      if vectors == null then Stores(chunks, [], map[]) else Stores(chunks, vectors.Entries(), vectors.chunks)
    }

    constructor (bm25: Bm25.BM25Index, vectors: Vectors.InMemoryVectorIndex?)
      requires bm25.Valid() && bm25.docs == map[]
      requires vectors != null ==> vectors.Valid() && vectors.chunks == map[]
      ensures Valid() && Agree(Held()) && chunks == map[] && this.bm25 == bm25 && this.vectors == vectors
    {
      this.chunks, this.bm25, this.vectors := map[], bm25, vectors;
    }

    /** Every vector entry belongs to a stored chunk. */
    lemma EntriesHeld()
      requires Valid()
      ensures forall i :: 0 <= i < |Held().entries| ==> Held().entries[i].id in Held().chunks
      ensures Held().copies.Keys <= Held().chunks.Keys
    {
      if vectors != null {
        forall i | 0 <= i < |Held().entries| ensures Held().entries[i].id in Held().chunks {
          assert Held().entries[i].id == vectors.ids[i];
          assert vectors.ids[i] in vectors.chunks;
        }
      }
    }

    predicate HasVector(v: Option<Vectors.Vector>) {
      v.Some? && vectors != null
    }

    /** The normalised row that the vector index stores. */
    ghost function Row(v: Option<Vectors.Vector>): Option<Vectors.Vector> {
      if !HasVector(v) || vectors.norm(v.value) == 0.0 then None
        else Some(Vectors.Scale(v.value, vectors.norm(v.value)))
    }

    method DropChunk(id: Id)
      requires Valid()
      modifies Repr()
      ensures Valid() && Held() == Drop(old(Held()), {id})
    {
      chunks := chunks - {id};
      bm25.Remove(id);
      if vectors != null {
        Vectors.WithoutIsSet(vectors.Entries(), id);
        vectors.Remove(id);
      }
    }

    /** One chunk into all three stores; a vector that cannot be stored leaves the vector index as it was. */
    method AddChunk(c: Chunk, v: Option<Vectors.Vector>) returns (error: Option<Vectors.Error>)
      requires Valid()
      modifies Repr()
      ensures Valid()
      ensures error.None? <==> !HasVector(v) || vectors.Acceptable(v.value)
      ensures Held() == Put(old(Held()), c, if error.Some? then None else Row(v))
    {
      hide SameChunks;
      SameChunksPut(chunks, bm25.docs, c, Bm25.MakeDoc(c, bm25.ops));
      chunks := chunks[c.chunkId := c];
      bm25.Add(c);
      error := None;
      if v.Some? && vectors != null {
        error := vectors.Add(c, v.value);
      }
    }

    /** Whether all the vectors given can be stored. */
    predicate Storable(vs: Option<seq<Vectors.Vector>>) {
      vs.None? || vectors == null || forall i :: 0 <= i < |vs.value| ==> vectors.Acceptable(vs.value[i])
    }

    ghost function Rows(vs: Option<seq<Vectors.Vector>>): Option<seq<Vectors.Vector>>
      requires Storable(vs)
    {
      if vs.None? || vectors == null then None
      else Some(seq(|vs.value|, i requires 0 <= i < |vs.value| =>
                      assert vectors.Acceptable(vs.value[i]);
                      Vectors.Scale(vs.value[i], vectors.norm(vs.value[i]))))
    }

    ghost function First(vs: Option<seq<Vectors.Vector>>, k: nat): Option<seq<Vectors.Vector>>
      requires vs.Some? ==> k <= |vs.value|
    {
      if vs.None? then None else Some(vs.value[..k])
    }

    lemma OneMoreChunk(s: Stores, cs: seq<Chunk>, vs: Option<seq<Vectors.Vector>>, k: nat)
      requires k < |cs| && (vs.Some? ==> |vs.value| == |cs|) && Storable(First(vs, k))
      requires var v := if vs.None? then None else Some(vs.value[k]); HasVector(v) ==> vectors.Acceptable(v.value)
      ensures Storable(First(vs, k + 1))
      ensures PutAll(s, cs[..k + 1], Rows(First(vs, k + 1)))
           == Put(PutAll(s, cs[..k], Rows(First(vs, k))), cs[k], Row(if vs.None? then None else Some(vs.value[k])))
    {
      hide Put;
      assert cs[..k + 1][..k] == cs[..k];
      if vs.Some? && vectors != null {
        forall i | 0 <= i < k + 1 ensures vectors.Acceptable(vs.value[i]) {
          assert i < k ==> vs.value[i] == First(vs, k).value[i];
        }
        assert Rows(First(vs, k + 1)).value[..k] == Rows(First(vs, k)).value;
      }
    }

    /** What was added before the failure, and the failing chunk itself, are gone after the roll-back. */
    lemma UndoneByDrop(s: Stores, before: Stores, cs: seq<Chunk>, vs: Option<seq<Vectors.Vector>>, k: nat)
      requires k < |cs| && (vs.Some? ==> |vs.value| == |cs|) && Storable(First(vs, k))
      requires before == PutAll(s, cs[..k], Rows(First(vs, k)))
      ensures Drop(Put(before, cs[k], None), IdsOf(cs)) == Drop(s, IdsOf(cs))
    {
      hide Drop, Put;
      IdsOfPrefix(cs, k);
      IdsOfAll(cs, cs[k].chunkId);
      DropAfterPut(before, cs[k], None, IdsOf(cs));
      DropAfterPutAll(s, cs[..k], Rows(First(vs, k)), IdsOf(cs));
    }

    /** The cleaning up after a failure: every chunk of the document is dropped, added or not. */
    method RollBack(cs: seq<Chunk>)
      requires Valid()
      modifies Repr()
      ensures Valid() && Held() == Drop(old(Held()), IdsOf(cs))
    {
      hide Drop, Valid, Held;
      DropNone(Held());
      for k := 0 to |cs|
        invariant Valid() && Held() == Drop(old(Held()), IdsOf(cs[..k]))
      {
        assert cs[..k + 1][..k] == cs[..k];
        DropBoth(old(Held()), IdsOf(cs[..k]), {cs[k].chunkId});
        DropChunk(cs[k].chunkId);
      }
      assert cs[..|cs|] == cs;
    }

    /**
     All or nothing. On success every chunk is in; on a vector that cannot be stored everything the call
     added is out again, along with whatever was there before under the same ids.
     */
    method AddDocument(cs: seq<Chunk>, vs: Option<seq<Vectors.Vector>>) returns (error: Option<AddError>)
      requires Valid()
      modifies Repr()
      ensures Valid()
      ensures error == Some(CountMismatch) <==> vs.Some? && |vs.value| != |cs|
      ensures error.None? <==> error != Some(CountMismatch) && Storable(vs)
      ensures error == Some(CountMismatch) ==> Held() == old(Held())
      ensures error.None? ==> Held() == PutAll(old(Held()), cs, Rows(vs))
      ensures error.Some? && error.value.BadVector? ==> Held() == Drop(old(Held()), IdsOf(cs))
      ensures error.Some? && error.value.BadVector? ==>
        (Held() == old(Held()) <==> IdsOf(cs) !! old(Held()).chunks.Keys)
    {
      hide Drop, Put, Valid, Held;
      EntriesHeld();
      DropFresh(Held(), IdsOf(cs));
      if vs.Some? && |vs.value| != |cs| {
        return Some(CountMismatch);
      }
      for i := 0 to |cs|
        invariant Valid() && Storable(First(vs, i))
        invariant Held() == PutAll(old(Held()), cs[..i], Rows(First(vs, i)))
      {
        var v := if vs.None? then None else Some(vs.value[i]);
        ghost var before := Held();
        var e := AddChunk(cs[i], v);
        if e.Some? {
          RollBack(cs);
          UndoneByDrop(old(Held()), before, cs, vs, i);
          return Some(BadVector(e.value));
        }
        OneMoreChunk(old(Held()), cs, vs, i);
      }
      assert cs[..|cs|] == cs && (vs.Some? ==> vs.value[..|cs|] == vs.value);
      error := None;
    }

    method RemoveDocument(documentId: string) returns (n: nat)
      requires Valid()
      modifies Repr()
      ensures Valid() && n == |OfDocument(old(chunks), documentId)|
      ensures Held() == Drop(old(Held()), OfDocument(old(chunks), documentId))
    {
      hide Drop, Valid, Held;
      var ids := set id | id in chunks && chunks[id].documentId == documentId;
      var rest, gone := ids, {};
      n := |ids|;
      DropNone(Held());
      while rest != {}
        invariant Valid() && rest + gone == ids && Held() == Drop(old(Held()), gone)
        decreases rest
      {
        var id :| id in rest;
        DropBoth(old(Held()), gone, {id});
        DropChunk(id);
        rest, gone := rest - {id}, gone + {id};
      }
      assert gone == ids;
    }
  }

  /** The lexical statistics are a function of the stored chunks: restoring the chunks restores them. */
  lemma ChunksDetermineDocs(chunks: map<Id, Chunk>, a: Bm25.Docs, b: Bm25.Docs, ops: TextOps)
    requires SameChunks(chunks, a) && SameChunks(chunks, b) && Bm25.DocsMade(a, ops) && Bm25.DocsMade(b, ops)
    ensures a == b
  {
    forall id | id in chunks ensures a[id] == b[id] {
      assert a[id] == Bm25.MakeDoc(chunks[id], ops) == b[id];
    }
  }
}
