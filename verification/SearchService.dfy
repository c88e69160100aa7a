/**
 The synchronised index and the retriever over it, as the application puts them together
 (app/container.py, app/ui/pages/citizen.py).
 */
module SearchService {
  import opened Wrappers
  import opened Corpus
  import opened Index = RagIndex
  import opened IndexSync
  import opened Retrieval
  import Vectors

  /** The retriever searches the index that the synchronizer keeps. */
  predicate Together(sync: IndexSynchronizer, retriever: HybridRetriever) {
    retriever.index == sync.index && retriever.vectors == sync.index.vectors
  }

  /** However the refreshes went, failed ones included, the index is one that may be searched. */
  lemma AlwaysSearchable(sync: IndexSynchronizer, retriever: HybridRetriever)
    requires sync.Valid() && Together(sync, retriever)
    ensures retriever.Valid()
  {
    AgreeingIndex(sync.index);
  }

  lemma {:induction false} PutFromContent(cs: seq<Chunk>, rows: Option<seq<Vectors.Vector>>, id: Id)
    requires (rows.Some? ==> |rows.value| == |cs|) && id in PutAll(NOTHING, cs, rows).chunks
    ensures PutAll(NOTHING, cs, rows).chunks[id] in cs
  {
    if cs != [] {
      var n := |cs| - 1;
      var before := if rows.None? then None else Some(rows.value[..n]);
      if cs[n].chunkId != id { PutFromContent(cs[..n], before, id); }
    }
  }

  /** The chunk is one of its document as the source shows it. */
  ghost predicate IsShown(content: (DocId, Version) -> Content, shown: map<DocId, Version>, c: Chunk) {
    c.documentId in shown && c in content(c.documentId, shown[c.documentId]).chunks
  }

  /** What every document's part being exact means for a single chunk. */
  lemma StoredIsShown(index: RagIndex, content: (DocId, Version) -> Content, owner: Id -> DocId, s: Stores,
                      shown: map<DocId, Version>, id: Id)
    requires id in s.chunks && owner(id) == s.chunks[id].documentId
    requires forall d :: if d in shown then Exact(index, content, Part(s, owner, d), d, shown[d])
                         else Part(s, owner, d) == NOTHING
    ensures IsShown(content, shown, s.chunks[id])
  {
    hide PutAll, Owned;
    var d := owner(id);
    assert id in Part(s, owner, d).chunks && Part(s, owner, d).chunks[id] == s.chunks[id];
    if d in shown {
      var c := content(d, shown[d]);
      PutFromContent(c.chunks, index.Rows(c.vectors), id);
    }
  }

  ghost predicate AllShown(content: (DocId, Version) -> Content, shown: map<DocId, Version>, chunks: map<Id, Chunk>) {
    forall id :: id in chunks ==> IsShown(content, shown, chunks[id])
  }

  lemma IndexIsShown(sync: IndexSynchronizer, shown: map<DocId, Version>)
    requires sync.Valid()
    requires forall d :: if d in shown
      then Exact(sync.index, sync.content, Part(sync.index.Held(), sync.owner, d), d, shown[d])
                         else Part(sync.index.Held(), sync.owner, d) == NOTHING
    ensures AllShown(sync.content, shown, sync.index.chunks)
  {
    hide Exact, Part, IsShown, SourceOk, AllInStep;
    forall id | id in sync.index.chunks ensures IsShown(sync.content, shown, sync.index.chunks[id]) {
      StoredIsShown(sync.index, sync.content, sync.owner, sync.index.Held(), shown, id);
    }
  }

  lemma AnswerIsShown(r: HybridRetriever, query: string, chunks: map<Id, Chunk>, visible: Chunk -> bool,
                      answer: seq<RetrievedChunk>, content: (DocId, Version) -> Content, shown: map<DocId, Version>)
    requires Answer(r.cfg, r.reranker, r.words, query, chunks, visible, answer)
    ensures forall c :: c in answer ==> visible(c.chunk)
    ensures AllShown(content, shown, chunks) ==> forall c :: c in answer ==> IsShown(content, shown, c.chunk)
  {
    hide IsShown;
  }

  /** The refresh alone, seen from the single chunk. */
  method Renew(sync: IndexSynchronizer, ready: seq<(DocId, Version)>, load: DocId -> Option<Content>)
    returns (refreshed: Result<Report, Failure>)
    requires sync.Valid() && ReadyOk(ready, sync.latest)
    requires forall i :: 0 <= i < |ready| && load(ready[i].0).Some? ==>
      load(ready[i].0).value == sync.content(ready[i].0, ready[i].1)
    modifies sync.Repr()
    ensures sync.Valid()
    ensures refreshed.Ok? <==> AllReload(sync.index, old(sync.seen), ready, load)
    ensures refreshed.Ok? ==> AllShown(sync.content, Shown(ready), sync.index.chunks)
  {
    hide Exact, Part, Shown, AllReload, AllShown, FailedAt, Changed, ReadyOk;
    refreshed := sync.Refresh(ready, load);
    if refreshed.Ok? { IndexIsShown(sync, Shown(ready)); }
  }

  /** The search alone. */
  method Find(retriever: HybridRetriever, query: string, visible: Chunk -> bool)
    returns (found: Option<RetrievalResult>)
    requires retriever.Valid()
    ensures found.None? <==> retriever.cfg.rrfK <= 0
    ensures found.Some? ==> Answer(retriever.cfg, retriever.reranker, retriever.words, query, retriever.index.chunks,
                                   visible, found.value.chunks)
  {
    hide Answer;
    ghost var lexical, semantic, fused;
    found, lexical, semantic, fused := retriever.Retrieve(query, visible);
  }

  /**
   A refresh and then a search. After a refresh that succeeds, all that is found is from the documents that are ready,
   as the source shows them now; after one that fails a search is still in order.
   */
  method RefreshAndSearch(sync: IndexSynchronizer, retriever: HybridRetriever, ready: seq<(DocId, Version)>,
                          load: DocId -> Option<Content>, query: string, visible: Chunk -> bool)
    returns (refreshed: Result<Report, Failure>, found: Option<RetrievalResult>)
    requires sync.Valid() && ReadyOk(ready, sync.latest) && Together(sync, retriever)
    requires forall i :: 0 <= i < |ready| && load(ready[i].0).Some? ==>
      load(ready[i].0).value == sync.content(ready[i].0, ready[i].1)
    modifies sync.Repr()
    ensures sync.Valid() && retriever.Valid()
    ensures refreshed.Ok? <==> AllReload(sync.index, old(sync.seen), ready, load)
    ensures found.None? <==> retriever.cfg.rrfK <= 0
    ensures found.Some? ==> forall c :: c in found.value.chunks ==> visible(c.chunk)
    ensures refreshed.Ok? && found.Some? ==>
      forall c :: c in found.value.chunks ==> IsShown(sync.content, Shown(ready), c.chunk)
  {
    hide IndexSynchronizer.Valid, HybridRetriever.Valid, Shown, AllReload, AllShown, IsShown, ReadyOk, Answer;
    refreshed := Renew(sync, ready, load);
    AlwaysSearchable(sync, retriever);
    found := Find(retriever, query, visible);
    if found.Some? {
      AnswerIsShown(retriever, query, sync.index.chunks, visible, found.value.chunks, sync.content, Shown(ready));
    }
  }
}
