/** Keeping the index in step with a source of documents, despite refreshes that fail midway (app/rag/index_sync.py). */
module IndexSync {
  import opened Wrappers
  import opened Corpus
  import opened Index = RagIndex
  import Vectors

  type DocId = string
  type Version = int

  /** What a document consists of at one version. */
  datatype Content = Content(chunks: seq<Chunk>, vectors: Option<seq<Vectors.Vector>>)

  datatype Failure = LoadFailed | NotAdded(e: AddError)

  datatype Report = Report(added: nat, removed: nat, documents: nat, chunks: nat)

  const NOTHING := Stores(map[], [], map[])

  // ---- The part of the index that belongs to one document ----

  ghost function Owned(entries: seq<Vectors.Entry>, owner: Id -> DocId, d: DocId): seq<Vectors.Entry> {
    if entries == [] then []
    else (if owner(entries[0].id) == d then [entries[0]] else []) + Owned(entries[1..], owner, d)
  }

  ghost function OwnedChunks(chunks: map<Id, Chunk>, owner: Id -> DocId, d: DocId): map<Id, Chunk> {
    map id | id in chunks && owner(id) == d :: chunks[id]
  }

  ghost function Part(s: Stores, owner: Id -> DocId, d: DocId): Stores {
    Stores(OwnedChunks(s.chunks, owner, d), Owned(s.entries, owner, d), OwnedChunks(s.copies, owner, d))
  }

  lemma {:induction false} OwnedAppends(entries: seq<Vectors.Entry>, e: Vectors.Entry, owner: Id -> DocId, d: DocId)
    ensures Owned(entries + [e], owner, d) == Owned(entries, owner, d) + if owner(e.id) == d then [e] else []
  {
    if entries == [] {
      assert entries + [e] == [e];
    } else {
      OwnedAppends(entries[1..], e, owner, d);
      assert (entries + [e])[1..] == entries[1..] + [e];
    }
  }

  lemma {:induction false} OwnedWithout(entries: seq<Vectors.Entry>, gone: set<Id>, owner: Id -> DocId, d: DocId)
    ensures Owned(Vectors.WithoutSet(entries, gone), owner, d) == Vectors.WithoutSet(Owned(entries, owner, d), gone)
  {
    if entries != [] {
      OwnedWithout(entries[1..], gone, owner, d);
      var rest, mine := Vectors.WithoutSet(entries[1..], gone), Owned(entries[1..], owner, d);
      assert [] + rest == rest && [] + mine == mine;
      assert ([entries[0]] + rest)[1..] == rest && ([entries[0]] + mine)[1..] == mine;
    }
  }

  lemma {:induction false} OwnedMembers(entries: seq<Vectors.Entry>, owner: Id -> DocId, d: DocId)
    ensures forall i :: 0 <= i < |Owned(entries, owner, d)| ==>
      owner(Owned(entries, owner, d)[i].id) == d && Owned(entries, owner, d)[i] in entries
  {
    if entries != [] { OwnedMembers(entries[1..], owner, d); }
  }

  lemma OwnedPut(entries: seq<Vectors.Entry>, e: Vectors.Entry, owner: Id -> DocId, d: DocId)
    ensures Owned(Vectors.Without(entries, e.id) + [e], owner, d)
         == if owner(e.id) == d then Vectors.Without(Owned(entries, owner, d), e.id) + [e] else Owned(entries, owner, d)
  {
    var mine := Owned(entries, owner, d);
    Vectors.WithoutIsSet(entries, e.id);
    Vectors.WithoutIsSet(mine, e.id);
    OwnedAppends(Vectors.Without(entries, e.id), e, owner, d);
    OwnedWithout(entries, {e.id}, owner, d);
    if owner(e.id) != d {
      OwnedMembers(entries, owner, d);
      Vectors.WithoutOthers(mine, {e.id});
      assert mine + [] == mine;
    }
  }

  lemma OwnedChunksPut(chunks: map<Id, Chunk>, c: Chunk, owner: Id -> DocId, d: DocId)
    ensures OwnedChunks(chunks[c.chunkId := c], owner, d)
         == if owner(c.chunkId) == d then OwnedChunks(chunks, owner, d)[c.chunkId := c]
           else OwnedChunks(chunks, owner, d)
  {}

  lemma OwnedChunksDrop(chunks: map<Id, Chunk>, ids: set<Id>, owner: Id -> DocId, own: DocId, d: DocId)
    requires forall id :: id in ids ==> owner(id) == own
    requires forall id :: id in chunks && owner(id) == own ==> id in ids
    ensures OwnedChunks(chunks - ids, owner, d) == if d == own then map[] else OwnedChunks(chunks, owner, d)
  {}

  lemma PartOfPut(s: Stores, c: Chunk, row: Option<Vectors.Vector>, owner: Id -> DocId, d: DocId)
    ensures owner(c.chunkId) == d ==> Part(Put(s, c, row), owner, d) == Put(Part(s, owner, d), c, row)
    ensures owner(c.chunkId) != d ==> Part(Put(s, c, row), owner, d) == Part(s, owner, d)
  {
    hide Owned, OwnedChunks, Vectors.Without;
    OwnedChunksPut(s.chunks, c, owner, d);
    OwnedChunksPut(s.copies, c, owner, d);
    if row.Some? {
      OwnedPut(s.entries, Vectors.Entry(c.chunkId, row.value), owner, d);
    }
  }

  lemma {:induction false} PartOfPutAll(s: Stores, cs: seq<Chunk>, rows: Option<seq<Vectors.Vector>>,
                                        owner: Id -> DocId, own: DocId, d: DocId)
    requires rows.Some? ==> |rows.value| == |cs|
    requires forall i :: 0 <= i < |cs| ==> owner(cs[i].chunkId) == own
    ensures d == own ==> Part(PutAll(s, cs, rows), owner, d) == PutAll(Part(s, owner, d), cs, rows)
    ensures d != own ==> Part(PutAll(s, cs, rows), owner, d) == Part(s, owner, d)
  {
    hide Part, Put;
    if cs != [] {
      var n := |cs| - 1;
      var before := if rows.None? then None else Some(rows.value[..n]);
      PartOfPutAll(s, cs[..n], before, owner, own, d);
      PartOfPut(PutAll(s, cs[..n], before), cs[n], if rows.None? then None else Some(rows.value[n]), owner, d);
    }
  }

  lemma {:induction false} AllGone(entries: seq<Vectors.Entry>, ids: set<Id>)
    requires forall i :: 0 <= i < |entries| ==> entries[i].id in ids
    ensures Vectors.WithoutSet(entries, ids) == []
  {
    if entries != [] { AllGone(entries[1..], ids); }
  }

  /** Dropping a document's ids empties its part and leaves the others alone. */
  lemma PartOfDrop(s: Stores, ids: set<Id>, owner: Id -> DocId, own: DocId, d: DocId)
    requires forall id :: id in ids <==> id in s.chunks && owner(id) == own
    requires forall i :: 0 <= i < |s.entries| ==> s.entries[i].id in s.chunks
    requires s.copies.Keys <= s.chunks.Keys
    ensures Part(Drop(s, ids), owner, d) == if d == own then NOTHING else Part(s, owner, d)
  {
    hide OwnedChunks;
    OwnedChunksDrop(s.chunks, ids, owner, own, d);
    OwnedChunksDrop(s.copies, ids, owner, own, d);
    OwnedWithout(s.entries, ids, owner, d);
    OwnedMembers(s.entries, owner, d);
    if d == own {
      AllGone(Owned(s.entries, owner, d), ids);
    } else {
      Vectors.WithoutOthers(Owned(s.entries, owner, d), ids);
    }
  }

  // ---- The source and what it means to be in step with it ----

  /** The documents of the source at every version; a chunk id belongs to one document. */
  ghost predicate SourceOk(content: (DocId, Version) -> Content, owner: Id -> DocId) {
    forall d, v, i :: 0 <= i < |content(d, v).chunks| ==>
      content(d, v).chunks[i].documentId == d && owner(content(d, v).chunks[i].chunkId) == d
  }

  ghost predicate OwnersRight(s: Stores, owner: Id -> DocId) {
    && (forall id :: id in s.chunks ==> owner(id) == s.chunks[id].documentId)
    && (forall i :: 0 <= i < |s.entries| ==> s.entries[i].id in s.chunks)
    && s.copies.Keys <= s.chunks.Keys
    && Agree(s)
  }

  /** A document's part of the index is exactly its content at version `v`. */
  ghost predicate Exact(index: RagIndex, content: (DocId, Version) -> Content, part: Stores, d: DocId, v: Version) {
    var c := content(d, v);
    && (c.vectors.Some? ==> |c.vectors.value| == |c.chunks|) && index.Storable(c.vectors)
    && part == PutAll(NOTHING, c.chunks, index.Rows(c.vectors))
  }

  /**
   A document not listed in `seen` has nothing in the index. One that is listed is there exactly as at
   that version, unless the source has meanwhile shown a newer one.
   */
  ghost predicate InStep(index: RagIndex, content: (DocId, Version) -> Content, part: Stores,
                         seen: Option<Version>, latest: Option<Version>, d: DocId)
  {
    match seen
    case None => part == NOTHING
    case Some(v) =>
      latest.Some? && v <= latest.value && (Exact(index, content, part, d, v) || v < latest.value)
  }

  function Get<K, V>(m: map<K, V>, k: K): Option<V> {
    if k in m then Some(m[k]) else None
  }

  ghost predicate AllInStep(index: RagIndex, content: (DocId, Version) -> Content, owner: Id -> DocId,
                            s: Stores, seen: map<DocId, Version>, latest: map<DocId, Version>)
  {
    forall d :: InStep(index, content, Part(s, owner, d), Get(seen, d), Get(latest, d), d)
  }

  /** With a newer source a document can only fall behind. */
  lemma NewerSource(index: RagIndex, content: (DocId, Version) -> Content, owner: Id -> DocId,
                    s: Stores, seen: map<DocId, Version>, latest: map<DocId, Version>, newer: map<DocId, Version>)
    requires AllInStep(index, content, owner, s, seen, latest)
    requires forall d :: d in latest ==> d in newer && latest[d] <= newer[d]
    ensures AllInStep(index, content, owner, s, seen, newer)
  {
    hide Part, Exact;
    forall d ensures InStep(index, content, Part(s, owner, d), Get(seen, d), Get(newer, d), d) {
      assert InStep(index, content, Part(s, owner, d), Get(seen, d), Get(latest, d), d);
    }
  }

  lemma {:induction false} EntriesLeft(entries: seq<Vectors.Entry>, ids: set<Id>)
    ensures forall i :: 0 <= i < |Vectors.WithoutSet(entries, ids)| ==>
      Vectors.WithoutSet(entries, ids)[i].id !in ids && Vectors.WithoutSet(entries, ids)[i] in entries
  {
    if entries != [] { EntriesLeft(entries[1..], ids); }
  }

  /** A document taken out of the index: the others are as they were. */
  lemma AfterRemoval(s: Stores, owner: Id -> DocId, own: DocId)
    requires OwnersRight(s, owner)
    ensures var left := Drop(s, OfDocument(s.chunks, own));
            && OwnersRight(left, owner)
            && forall d :: Part(left, owner, d) == if d == own then NOTHING else Part(s, owner, d)
  {
    var ids := OfDocument(s.chunks, own);
    var left := Drop(s, ids);
    forall d ensures Part(left, owner, d) == if d == own then NOTHING else Part(s, owner, d) {
      PartOfDrop(s, ids, owner, own, d);
    }
    EntriesLeft(s.entries, ids);
    AgreeAfterDrop(s, ids);
  }

  lemma {:induction false} OwnersAfterPutAll(s: Stores, cs: seq<Chunk>, rows: Option<seq<Vectors.Vector>>,
                                             owner: Id -> DocId)
    requires rows.Some? ==> |rows.value| == |cs|
    requires forall id :: id in s.chunks ==> owner(id) == s.chunks[id].documentId
    requires forall i :: 0 <= i < |cs| ==> owner(cs[i].chunkId) == cs[i].documentId
    ensures var more := PutAll(s, cs, rows); forall id :: id in more.chunks ==> owner(id) == more.chunks[id].documentId
  {
    if cs != [] {
      var n := |cs| - 1;
      OwnersAfterPutAll(s, cs[..n], if rows.None? then None else Some(rows.value[..n]), owner);
    }
  }

  /** A document put in, with ids of its own: it is there exactly, and the others are as they were. */
  lemma AfterAdding(s: Stores, owner: Id -> DocId, own: DocId, cs: seq<Chunk>, rows: Option<seq<Vectors.Vector>>)
    requires OwnersRight(s, owner) && (rows.Some? ==> |rows.value| == |cs|)
    requires Part(s, owner, own) == NOTHING
    requires forall i :: 0 <= i < |cs| ==> cs[i].documentId == own && owner(cs[i].chunkId) == own
    ensures IdsOf(cs) !! s.chunks.Keys
    ensures var more := PutAll(s, cs, rows);
            && (forall id :: id in more.chunks ==> owner(id) == more.chunks[id].documentId) && Agree(more)
            && forall d :: Part(more, owner, d) == if d == own then PutAll(NOTHING, cs, rows) else Part(s, owner, d)
  {
    forall id | id in IdsOf(cs) ensures id !in s.chunks {
      IdsOfAll(cs, id);
      assert id in s.chunks ==> id in Part(s, owner, own).chunks;
    }
    forall d ensures Part(PutAll(s, cs, rows), owner, d) == if d == own then PutAll(NOTHING, cs, rows)
      else Part(s, owner, d) {
      PartOfPutAll(s, cs, rows, owner, own, d);
    }
    AgreeAfterPutAll(s, cs, rows);
    OwnersAfterPutAll(s, cs, rows, owner);
  }

  /** `dict(ready_documents())` */
  function Shown(ready: seq<(DocId, Version)>): map<DocId, Version> {
    if ready == [] then map[] else Shown(ready[..|ready| - 1])[ready[|ready| - 1].0 := ready[|ready| - 1].1]
  }

  ghost predicate DistinctDocs(ready: seq<(DocId, Version)>) {
    forall i, j :: 0 <= i < j < |ready| ==> ready[i].0 != ready[j].0
  }

  /** Each document once, and no version older than one shown before. */
  ghost predicate ReadyOk(ready: seq<(DocId, Version)>, latest: map<DocId, Version>) {
    && DistinctDocs(ready)
    && (forall i :: 0 <= i < |ready| && ready[i].0 in latest ==> latest[ready[i].0] <= ready[i].1)
  }

  lemma {:induction false} ShownAt(ready: seq<(DocId, Version)>, i: nat)
    requires i < |ready| && DistinctDocs(ready)
    ensures ready[i].0 in Shown(ready) && Shown(ready)[ready[i].0] == ready[i].1
  {
    if i < |ready| - 1 { ShownAt(ready[..|ready| - 1], i); }
  }

  lemma {:induction false} ShownKeys(ready: seq<(DocId, Version)>, d: DocId)
    requires d in Shown(ready)
    ensures exists i :: 0 <= i < |ready| && ready[i].0 == d && ready[i].1 == Shown(ready)[d]
  {
    var n := |ready| - 1;
    if ready[n].0 != d {
      ShownKeys(ready[..n], d);
      var i :| 0 <= i < n && ready[..n][i].0 == d && ready[..n][i].1 == Shown(ready[..n])[d];
      assert ready[i].0 == d;
    }
  }

  lemma ShownNewer(ready: seq<(DocId, Version)>, latest: map<DocId, Version>)
    requires ReadyOk(ready, latest)
    ensures forall d :: d in latest ==> d in latest + Shown(ready) && latest[d] <= (latest + Shown(ready))[d]
  {
    forall d | d in latest ensures latest[d] <= (latest + Shown(ready))[d] {
      if d in Shown(ready) { ShownKeys(ready, d); }
    }
  }

  lemma SourceShows(index: RagIndex, content: (DocId, Version) -> Content, owner: Id -> DocId,
                    s: Stores, seen: map<DocId, Version>, latest: map<DocId, Version>, ready: seq<(DocId, Version)>)
    requires AllInStep(index, content, owner, s, seen, latest) && ReadyOk(ready, latest)
    ensures AllInStep(index, content, owner, s, seen, latest + Shown(ready)) && DistinctDocs(ready)
  {
    hide AllInStep;
    ShownNewer(ready, latest);
    NewerSource(index, content, owner, s, seen, latest, latest + Shown(ready));
  }

  ghost predicate UpToDate(ready: seq<(DocId, Version)>, seen: map<DocId, Version>) {
    forall k :: 0 <= k < |ready| ==> ready[k].0 in seen && seen[ready[k].0] == ready[k].1
  }

  lemma NoneYet(ready: seq<(DocId, Version)>, seen: map<DocId, Version>)
    ensures UpToDate(ready[..0], seen)
  {}

  lemma OneMoreUpToDate(ready: seq<(DocId, Version)>, i: nat, seen: map<DocId, Version>)
    requires i < |ready| && UpToDate(ready[..i], seen)
    requires DistinctDocs(ready)
    ensures UpToDate(ready[..i + 1], seen[ready[i].0 := ready[i].1])
    ensures Get(seen, ready[i].0) == Some(ready[i].1) ==> UpToDate(ready[..i + 1], seen)
  {
    forall k | 0 <= k < i ensures ready[k].0 in seen && seen[ready[k].0] == ready[k].1 {
      assert ready[..i][k] == ready[k];
    }
  }

  lemma AllShown(ready: seq<(DocId, Version)>, seen: map<DocId, Version>)
    requires DistinctDocs(ready)
    requires forall d :: d in seen ==> d in Shown(ready)
    requires UpToDate(ready, seen)
    ensures seen == Shown(ready)
  {
    forall d | d in Shown(ready) ensures d in seen && seen[d] == Shown(ready)[d] { ShownKeys(ready, d); }
  }

  lemma ContentOwned(content: (DocId, Version) -> Content, owner: Id -> DocId, d: DocId, v: Version)
    requires SourceOk(content, owner)
    ensures forall i :: 0 <= i < |content(d, v).chunks| ==>
      content(d, v).chunks[i].documentId == d && owner(content(d, v).chunks[i].chunkId) == d
  {}

  lemma StepAfterRemoval(index: RagIndex, content: (DocId, Version) -> Content, owner: Id -> DocId, s: Stores, d: DocId,
                         seen: map<DocId, Version>, forgotten: map<DocId, Version>, latest: map<DocId, Version>)
    requires OwnersRight(s, owner) && AllInStep(index, content, owner, s, seen, latest)
    requires forgotten == seen - {d} || (forgotten == seen && (d in seen ==> d in latest && seen[d] < latest[d]))
    ensures AllInStep(index, content, owner, Drop(s, OfDocument(s.chunks, d)), forgotten, latest)
    ensures Part(Drop(s, OfDocument(s.chunks, d)), owner, d) == NOTHING
  {
    hide Part, Exact, OwnersRight, Drop;
    AfterRemoval(s, owner, d);
    var left := Drop(s, OfDocument(s.chunks, d));
    forall x ensures InStep(index, content, Part(left, owner, x), Get(forgotten, x), Get(latest, x), x) {
      assert InStep(index, content, Part(s, owner, x), Get(seen, x), Get(latest, x), x);
    }
  }

  lemma StepAfterAdding(index: RagIndex, content: (DocId, Version) -> Content, owner: Id -> DocId, s: Stores,
                        d: DocId, v: Version,
                        seen: map<DocId, Version>, latest: map<DocId, Version>)
    requires SourceOk(content, owner) && OwnersRight(s, owner) && AllInStep(index, content, owner, s, seen, latest)
    requires Part(s, owner, d) == NOTHING && d in latest && latest[d] == v
    requires index.Storable(content(d, v).vectors)
    requires content(d, v).vectors.Some? ==> |content(d, v).vectors.value| == |content(d, v).chunks|
    ensures AllInStep(index, content, owner, PutAll(s, content(d, v).chunks, index.Rows(content(d, v).vectors)),
      seen[d := v], latest)
  {
    var c := content(d, v);
    ContentOwned(content, owner, d, v);
    AfterAdding(s, owner, d, c.chunks, index.Rows(c.vectors));
    var more := PutAll(s, c.chunks, index.Rows(c.vectors));
    assert Exact(index, content, PutAll(NOTHING, c.chunks, index.Rows(c.vectors)), d, v);
    hide Part, Exact, OwnersRight, SourceOk, PutAll;
    forall x ensures InStep(index, content, Part(more, owner, x), Get(seen[d := v], x), Get(latest, x), x) {
      assert InStep(index, content, Part(s, owner, x), Get(seen, x), Get(latest, x), x);
    }
  }

  /** Once every listed version is the newest shown, being in step is being exact. */
  lemma InStepIsExact(index: RagIndex, content: (DocId, Version) -> Content, owner: Id -> DocId, s: Stores,
                      seen: map<DocId, Version>, latest: map<DocId, Version>)
    requires AllInStep(index, content, owner, s, seen, latest)
    requires forall d :: d in seen ==> d in latest && seen[d] == latest[d]
    ensures forall d :: if d in seen then Exact(index, content, Part(s, owner, d), d, seen[d])
      else Part(s, owner, d) == NOTHING
  {
    hide Part, Exact;
    forall d ensures if d in seen then Exact(index, content, Part(s, owner, d), d, seen[d])
      else Part(s, owner, d) == NOTHING {
      assert InStep(index, content, Part(s, owner, d), Get(seen, d), Get(latest, d), d);
    }
  }

  /** What a document needs to get into the index: it loads, and its vectors fit its chunks and can be stored. */
  ghost predicate Loadable(index: RagIndex, loaded: Option<Content>) {
    && loaded.Some? && index.Storable(loaded.value.vectors)
    && (loaded.value.vectors.Some? ==> |loaded.value.vectors.value| == |loaded.value.chunks|)
  }

  /** The document is in the index already, or can be loaded. */
  ghost predicate Reloads(index: RagIndex, seen: map<DocId, Version>, ready: seq<(DocId, Version)>,
                          load: DocId -> Option<Content>, i: nat)
    requires i < |ready|
  {
    Get(seen, ready[i].0) == Some(ready[i].1) || Loadable(index, load(ready[i].0))
  }

  ghost predicate AllReload(index: RagIndex, seen: map<DocId, Version>, ready: seq<(DocId, Version)>,
                            load: DocId -> Option<Content>) {
    forall i :: 0 <= i < |ready| ==> Reloads(index, seen, ready, load, i)
  }

  ghost predicate Untouched(was: map<DocId, Version>, seen: map<DocId, Version>, ready: seq<(DocId, Version)>, i: nat) {
    forall k :: i <= k < |ready| ==> Get(seen, ready[k].0) == Get(was, ready[k].0)
  }

  /** A failure at the `i`-th document: those before it are up to date, those from it on are remembered as before. */
  ghost predicate FailedAt(index: RagIndex, was: map<DocId, Version>, seen: map<DocId, Version>,
                           ready: seq<(DocId, Version)>, load: DocId -> Option<Content>, i: nat) {
    && i < |ready| && !Reloads(index, was, ready, load, i) && AllReload(index, was, ready[..i], load)
    && UpToDate(ready[..i], seen) && Untouched(was, seen, ready, i)
  }

  /** How many of the ready documents are new or at another version. */
  ghost function Changed(seen: map<DocId, Version>, ready: seq<(DocId, Version)>): nat {
    if ready == [] then 0
    else
      var n := |ready| - 1;
      Changed(seen, ready[..n]) + if Get(seen, ready[n].0) == Some(ready[n].1) then 0 else 1
  }

  lemma OneMoreChanged(seen: map<DocId, Version>, ready: seq<(DocId, Version)>, i: nat)
    requires i < |ready|
    ensures Changed(seen, ready[..i + 1])
         == Changed(seen, ready[..i]) + if Get(seen, ready[i].0) == Some(ready[i].1) then 0 else 1
  {
    assert ready[..i + 1][..i] == ready[..i];
  }

  lemma {:induction false} SameChanged(was: map<DocId, Version>, kept: map<DocId, Version>,
                                       ready: seq<(DocId, Version)>)
    requires forall i :: 0 <= i < |ready| ==> Get(was, ready[i].0) == Get(kept, ready[i].0)
    ensures Changed(was, ready) == Changed(kept, ready)
  {
    if ready != [] { SameChanged(was, kept, ready[..|ready| - 1]); }
  }

  ghost function Forgotten(seen: map<DocId, Version>, gone: set<DocId>): map<DocId, Version> {
    seen - gone
  }

  lemma NoneForgotten(seen: map<DocId, Version>, ready: seq<(DocId, Version)>, gone: set<DocId>)
    requires gone == set d | d in seen && d !in Shown(ready)
    ensures Forgotten(seen, gone - gone) == seen && gone == seen.Keys - Shown(ready).Keys
    ensures seen.Keys <= Shown(ready).Keys ==> gone == {}
  {
    hide Shown;
  }

  lemma OneMoreForgotten(seen: map<DocId, Version>, gone: set<DocId>, rest: set<DocId>, d: DocId)
    requires d in rest && rest <= gone
    ensures Forgotten(seen, gone - (rest - {d})) == Forgotten(seen, gone - rest) - {d} && |rest - {d}| == |rest| - 1
  {
    assert gone - (rest - {d}) == (gone - rest) + {d};
  }

  lemma AllForgotten(seen: map<DocId, Version>, ready: seq<(DocId, Version)>, gone: set<DocId>)
    requires gone == seen.Keys - Shown(ready).Keys
    ensures Forgotten(seen, gone) == map d | d in seen && d in Shown(ready) :: seen[d]
    ensures gone == {} ==> Forgotten(seen, gone) == seen
  {
    hide Shown;
  }

  lemma OneMoreReloads(index: RagIndex, was: map<DocId, Version>, ready: seq<(DocId, Version)>,
                       load: DocId -> Option<Content>, i: nat)
    requires i < |ready| && AllReload(index, was, ready[..i], load) && Reloads(index, was, ready, load, i)
    ensures AllReload(index, was, ready[..i + 1], load)
  {
    hide Loadable;
    var more := ready[..i + 1];
    forall k | 0 <= k <= i ensures Reloads(index, was, more, load, k) {
      assert k < i ==> Reloads(index, was, ready[..i], load, k);
    }
  }

  lemma StillUntouched(was: map<DocId, Version>, seen: map<DocId, Version>, ready: seq<(DocId, Version)>, i: nat)
    requires i < |ready| && DistinctDocs(ready) && Untouched(was, seen, ready, i)
    ensures Untouched(was, seen, ready, i + 1) && Untouched(was, seen[ready[i].0 := ready[i].1], ready, i + 1)
  {}

  lemma UntouchedAt(was: map<DocId, Version>, seen: map<DocId, Version>, ready: seq<(DocId, Version)>, i: nat)
    requires i < |ready| && Untouched(was, seen, ready, i)
    ensures Get(seen, ready[i].0) == Get(was, ready[i].0)
  {}

  lemma NoneReloaded(index: RagIndex, seen: map<DocId, Version>, ready: seq<(DocId, Version)>,
                     load: DocId -> Option<Content>)
    ensures AllReload(index, seen, ready[..0], load) && Untouched(seen, seen, ready, 0)
      && Changed(seen, ready[..0]) == 0
  {}

  lemma NotAllReload(index: RagIndex, was: map<DocId, Version>, seen: map<DocId, Version>, ready: seq<(DocId, Version)>,
                     load: DocId -> Option<Content>, i: nat)
    requires FailedAt(index, was, seen, ready, load, i)
    ensures !AllReload(index, was, ready, load)
  {}

  lemma SameReloads(index: RagIndex, was: map<DocId, Version>, kept: map<DocId, Version>, ready: seq<(DocId, Version)>,
                    load: DocId -> Option<Content>)
    requires forall i :: 0 <= i < |ready| ==> Get(was, ready[i].0) == Get(kept, ready[i].0)
    ensures AllReload(index, was, ready, load) <==> AllReload(index, kept, ready, load)
  {
    hide Loadable, Get;
    forall i | 0 <= i < |ready| ensures Reloads(index, was, ready, load, i) <==> Reloads(index, kept, ready, load, i) {}
  }

  /** Forgetting documents that are not ready changes nothing for those that are. */
  lemma ForgettingTheRest(index: RagIndex, was: map<DocId, Version>, kept: map<DocId, Version>,
                          ready: seq<(DocId, Version)>,
                          load: DocId -> Option<Content>)
    requires DistinctDocs(ready) && kept == map d | d in was && d in Shown(ready) :: was[d]
    ensures AllReload(index, was, ready, load) <==> AllReload(index, kept, ready, load)
    ensures Changed(was, ready) == Changed(kept, ready)
    ensures forall i: nat, seen :: FailedAt(index, kept, seen, ready, load, i) ==>
      FailedAt(index, was, seen, ready, load, i)
  {
    hide Loadable, Shown, UpToDate, DistinctDocs, Changed;
    forall i | 0 <= i < |ready| ensures Get(was, ready[i].0) == Get(kept, ready[i].0) {
      ShownAt(ready, i);
    }
    SameReloads(index, was, kept, ready, load);
    SameChanged(was, kept, ready);
    forall i: nat, seen | FailedAt(index, kept, seen, ready, load, i)
      ensures FailedAt(index, was, seen, ready, load, i) {
      SameReloads(index, was, kept, ready[..i], load);
    }
  }

  // ---- The synchronizer ----

  class IndexSynchronizer {
    const index: RagIndex
    var seen: map<DocId, Version>
    /** The newest version the source has shown of each document. */
    ghost var latest: map<DocId, Version>

    ghost const content: (DocId, Version) -> Content
    ghost const owner: Id -> DocId

    ghost function Repr(): set<object> {
      {this} + index.Repr()
    }

    ghost predicate Valid()
      reads Repr()
    {
      && this !in index.Repr() && index.Valid()
      && SourceOk(content, owner) && OwnersRight(index.Held(), owner)
      && AllInStep(index, content, owner, index.Held(), seen, latest)
    }

    constructor (index: RagIndex, ghost content: (DocId, Version) -> Content, ghost owner: Id -> DocId)
      requires index.Valid() && index.Held() == NOTHING && SourceOk(content, owner)
      ensures Valid() && seen == map[] && latest == map[] && this.index == index
      ensures this.content == content && this.owner == owner
    {
      this.index, this.content, this.owner, seen, latest := index, content, owner, map[], map[];
      new;
      assert index.Held() == NOTHING;
      forall d ensures InStep(index, content, Part(NOTHING, owner, d), Get(seen, d), Get(latest, d), d) {
        assert OwnedChunks(map[], owner, d) == map[];
      }
    }

    /** `index.remove_document(doc_id)`, with the document forgotten or known to be behind. */
    method Remove(d: DocId, ghost forgotten: map<DocId, Version>)
      requires Valid()
      requires forgotten == seen - {d} || (forgotten == seen && (d in seen ==> d in latest && seen[d] < latest[d]))
      modifies index.Repr()
      ensures index.Valid() && OwnersRight(index.Held(), owner)
      ensures AllInStep(index, content, owner, index.Held(), forgotten, latest)
      ensures Part(index.Held(), owner, d) == NOTHING
    {
      hide Part, Exact, OwnersRight, AllInStep, SourceOk;
      ghost var s := index.Held();
      AfterRemoval(s, owner, d);
      StepAfterRemoval(index, content, owner, s, d, seen, forgotten, latest);
      var _ := index.RemoveDocument(d);
    }

    lemma OwnersAfterAdding(index: RagIndex, owner: Id -> DocId, s: Stores)
      requires index.Valid() && s == index.Held() && Agree(s)
      requires forall id :: id in s.chunks ==> owner(id) == s.chunks[id].documentId
      ensures OwnersRight(s, owner)
    {
      index.EntriesHeld();
    }

    /** One document that is new or has changed: loaded, taken out, and put in again. */
    method Reload(d: DocId, v: Version, loaded: Option<Content>) returns (error: Option<Failure>)
      requires Valid() && d in latest && latest[d] == v && Get(seen, d) != Some(v)
      requires loaded.Some? ==> loaded.value == content(d, v)
      modifies Repr()
      ensures Valid() && latest == old(latest)
      ensures seen == if error.None? then old(seen)[d := v] else old(seen)
      ensures error.None? <==> Loadable(index, loaded)
      ensures error == Some(LoadFailed) <==> loaded.None?
      ensures error == Some(LoadFailed) ==> index.Held() == old(index.Held())
      ensures error.Some? && error != Some(LoadFailed) ==> Part(index.Held(), owner, d) == NOTHING
    {
      hide Part, Exact, OwnersRight, SourceOk, Drop, PutAll;
      if loaded.None? {
        return Some(LoadFailed);
      }
      assert InStep(index, content, Part(index.Held(), owner, d), Get(seen, d), Get(latest, d), d);
      hide AllInStep;
      var c := loaded.value;
      ContentOwned(content, owner, d, v);
      Remove(d, seen);
      ghost var s := index.Held();
      AfterAdding(s, owner, d, c.chunks, None);
      var e := index.AddDocument(c.chunks, c.vectors);
      if e.Some? {
        return Some(NotAdded(e.value));
      }
      AfterAdding(s, owner, d, c.chunks, index.Rows(c.vectors));
      StepAfterAdding(index, content, owner, s, d, v, seen, latest);
      OwnersAfterAdding(index, owner, index.Held());
      seen, error := seen[d := v], None;
    }

    /** The loop over the ready documents. */
    method ReloadAll(ready: seq<(DocId, Version)>, load: DocId -> Option<Content>) returns (r: Result<nat, Failure>)
      requires Valid() && DistinctDocs(ready)
      requires forall d :: d in Shown(ready) ==> d in latest && latest[d] == Shown(ready)[d]
      requires forall d :: d in seen ==> d in Shown(ready)
      requires forall i :: 0 <= i < |ready| && load(ready[i].0).Some? ==>
        load(ready[i].0).value == content(ready[i].0, ready[i].1)
      modifies Repr()
      ensures Valid() && latest == old(latest)
      ensures r.Ok? <==> AllReload(index, old(seen), ready, load)
      ensures r.Ok? ==> seen == Shown(ready) && r.value == Changed(old(seen), ready)
      ensures r.Err? ==> exists i :: FailedAt(index, old(seen), seen, ready, load, i)
      ensures old(seen) == Shown(ready) ==> index.Held() == old(index.Held()) && r == Ok(0)
    {
      hide Part, Exact, OwnersRight, SourceOk, AllInStep, Drop, PutAll, UpToDate, Loadable, Untouched, Shown,
        DistinctDocs, AllReload, Changed;
      NoneYet(ready, seen);
      NoneReloaded(index, seen, ready, load);
      var added := 0;
      for i := 0 to |ready|
        invariant Valid() && latest == old(latest)
        invariant seen.Keys <= Shown(ready).Keys && UpToDate(ready[..i], seen)
        invariant AllReload(index, old(seen), ready[..i], load) && Untouched(old(seen), seen, ready, i)
        invariant added == Changed(old(seen), ready[..i])
        invariant old(seen) == Shown(ready) ==> index.Held() == old(index.Held()) && seen == old(seen) && added == 0
      {
        var (d, v) := ready[i];
        ShownAt(ready, i);
        OneMoreUpToDate(ready, i, seen);
        StillUntouched(old(seen), seen, ready, i);
        UntouchedAt(old(seen), seen, ready, i);
        OneMoreChanged(old(seen), ready, i);
        if Get(seen, d) != Some(v) {
          var error := Reload(d, v, load(d));
          if error.Some? {
            assert FailedAt(index, old(seen), seen, ready, load, i);
            NotAllReload(index, old(seen), seen, ready, load, i);
            return Err(error.value);
          }
          added := added + 1;
        }
        OneMoreReloads(index, old(seen), ready, load, i);
      }
      assert ready[..|ready|] == ready;
      AllShown(ready, seen);
      r := Ok(added);
    }

    /** A document leaves the index and is not remembered. */
    method Forget(d: DocId)
      requires Valid()
      modifies Repr()
      ensures Valid() && latest == old(latest) && seen == old(seen) - {d}
    {
      hide Part, Exact, OwnersRight, SourceOk, AllInStep, Drop, PutAll;
      Remove(d, seen - {d});
      seen := seen - {d};
    }

    /** The documents that are no longer ready leave the index. */
    method Prune(ready: seq<(DocId, Version)>) returns (removed: nat)
      requires Valid()
      modifies Repr()
      ensures Valid() && latest == old(latest)
      ensures seen == map d | d in old(seen) && d in Shown(ready) :: old(seen)[d]
      ensures removed == |old(seen).Keys - Shown(ready).Keys|
      ensures old(seen).Keys <= Shown(ready).Keys ==>
        index.Held() == old(index.Held()) && seen == old(seen) && removed == 0
    {
      hide Part, Exact, OwnersRight, SourceOk, AllInStep, Drop, PutAll, Shown, Forgotten;
      var gone := set d | d in seen && d !in Shown(ready);
      var rest := gone;
      removed := 0;
      NoneForgotten(seen, ready, gone);
      while rest != {}
        invariant Valid() && latest == old(latest) && rest <= gone
        invariant seen == Forgotten(old(seen), gone - rest) && removed == |gone| - |rest|
        invariant gone == {} ==> index.Held() == old(index.Held())
        decreases rest
      {
        var d :| d in rest;
        OneMoreForgotten(old(seen), gone, rest, d);
        Forget(d);
        rest, removed := rest - {d}, removed + 1;
      }
      AllForgotten(old(seen), ready, gone);
      assert gone - rest == gone;
    }

    /**
     One refresh against a source that now shows `ready`. Loading or adding may fail at any document; the
     next refreshes still find everything in order.
     */
    method Refresh(ready: seq<(DocId, Version)>, load: DocId -> Option<Content>) returns (r: Result<Report, Failure>)
      requires Valid() && ReadyOk(ready, latest)
      requires forall i :: 0 <= i < |ready| && load(ready[i].0).Some? ==>
        load(ready[i].0).value == content(ready[i].0, ready[i].1)
      modifies Repr()
      ensures Valid()
      ensures latest == old(latest) + Shown(ready)
      ensures r.Ok? <==> AllReload(index, old(seen), ready, load)
      ensures r.Err? ==> exists i :: FailedAt(index, old(seen), seen, ready, load, i)
      ensures r.Ok? ==> seen == Shown(ready) && r.value.documents == |seen| && r.value.chunks == |index.chunks|
      ensures r.Ok? ==> r.value.added == Changed(old(seen), ready)
                        && r.value.removed == |old(seen).Keys - Shown(ready).Keys|
      ensures r.Ok? ==> forall d ::
        if d in Shown(ready) then Exact(index, content, Part(index.Held(), owner, d), d, Shown(ready)[d])
        else Part(index.Held(), owner, d) == NOTHING
      ensures old(seen) == Shown(ready) ==>
        index.Held() == old(index.Held()) && r.Ok? && r.value.added == 0 && r.value.removed == 0
    {
      hide Part, Exact, OwnersRight, SourceOk, AllInStep, Drop, PutAll, UpToDate, Shown, ReadyOk, DistinctDocs,
        AllReload, FailedAt, Changed;
      SourceShows(index, content, owner, index.Held(), seen, latest, ready);
      latest := latest + Shown(ready);
      ghost var inStep := seen == Shown(ready);
      var removed := Prune(ready);
      assert inStep ==> seen == Shown(ready) && removed == 0 && index.Held() == old(index.Held());
      ForgettingTheRest(index, old(seen), seen, ready, load);
      var reloaded := ReloadAll(ready, load);
      if reloaded.Err? {
        return Err(reloaded.error);
      }
      InStepIsExact(index, content, owner, index.Held(), seen, latest);
      r := Ok(Report(reloaded.value, removed, |seen|, |index.chunks|));
    }
  }
}
